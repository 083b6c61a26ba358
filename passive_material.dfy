/**
 * The passive material construction of the Geant4 geometry builder: it
 * creates one passive volume per passive configuration, sorts the volumes
 * so that every mother volume is built before the volumes placed inside it,
 * and builds them in that order.
 *
 * The order is by the depth of a volume in the mother chain: 1 for a volume
 * whose mother is not one of the passive volumes (the world, say), and one
 * more than the depth of its mother otherwise.  The mother of a volume is
 * the first passive volume carrying the mother's name.
 */
module PassiveMaterialConstructionG4 {
  import opened Outcomes

  /** A passive element of the geometry: its name and the name of its mother volume. */
  datatype PassiveConfig = PassiveConfig(name: string, motherVolume: string)

  /** The passive volume created from a configuration (getName, getMotherVolume). */
  datatype PassiveMaterialVolume = PassiveMaterialVolume(name: string, motherVolume: string)

  function VolumeOf(config: PassiveConfig): PassiveMaterialVolume
  {
    PassiveMaterialVolume(config.name, config.motherVolume)
  }

  // ---------------------------------------------------------------------------
  // The hierarchy depth
  // ---------------------------------------------------------------------------

  /** std::find_if for the first volume named `name`. */
  function MotherIndex(vols: seq<PassiveMaterialVolume>, name: string, from: nat := 0): (r: Option<nat>)
    requires from <= |vols|
    ensures r.Some? ==> from <= r.value < |vols| && vols[r.value].name == name
    ensures r.Some? ==> forall i :: from <= i < r.value ==> vols[i].name != name
    ensures r.None? ==> forall i :: from <= i < |vols| ==> vols[i].name != name
    decreases |vols| - from
  {
    if from == |vols| then None
    else if vols[from].name == name then Some(from)
    else MotherIndex(vols, name, from + 1)
  }

  /** Following mothers from vol reaches a volume without a mother in at most `steps` steps. */
  ghost predicate ChainWithin(vol: PassiveMaterialVolume, vols: seq<PassiveMaterialVolume>, steps: nat)
    decreases steps
  {
    match MotherIndex(vols, vol.motherVolume)
    case None => true
    case Some(j) => steps > 0 && ChainWithin(vols[j], vols, steps - 1)
  }

  /**
   * No mother chain among vols runs in a circle: from every volume the
   * chain ends within |vols| steps.  Without this the recursion of the
   * hierarchy function does not terminate.
   */
  ghost predicate Acyclic(vols: seq<PassiveMaterialVolume>)
  {
    forall i :: 0 <= i < |vols| ==> ChainWithin(vols[i], vols, |vols|)
  }

  /** The recursive lambda `hierarchy(vol, vols)`; `steps` only bounds the recursion. */
  function Hierarchy(vol: PassiveMaterialVolume, vols: seq<PassiveMaterialVolume>, ghost steps: nat): (d: nat)
    requires ChainWithin(vol, vols, steps)
    ensures 1 <= d <= steps + 1
    decreases steps
  {
    match MotherIndex(vols, vol.motherVolume)
    case None => 1
    case Some(j) => Hierarchy(vols[j], vols, steps - 1) + 1
  }

  /** Over acyclic volumes every volume, listed or not, has a depth. */
  lemma ChainOfAny(vol: PassiveMaterialVolume, vols: seq<PassiveMaterialVolume>)
    requires Acyclic(vols)
    ensures ChainWithin(vol, vols, |vols| + 1)
  {
    match MotherIndex(vols, vol.motherVolume)
    case None =>
    case Some(j) => assert ChainWithin(vols[j], vols, |vols|);
  }

  /** The depth the sort compares: hierarchy(vol, volumes). */
  function Depth(vol: PassiveMaterialVolume, vols: seq<PassiveMaterialVolume>): nat
    requires Acyclic(vols)
  {
    ChainOfAny(vol, vols);
    Hierarchy(vol, vols, |vols| + 1)
  }

  /** The depth does not depend on the bound that was used to reach it. */
  lemma {:induction false} HierarchyAnyBound(vol: PassiveMaterialVolume, vols: seq<PassiveMaterialVolume>, a: nat, b: nat)
    requires ChainWithin(vol, vols, a) && ChainWithin(vol, vols, b)
    ensures Hierarchy(vol, vols, a) == Hierarchy(vol, vols, b)
    decreases a
  {
    match MotherIndex(vols, vol.motherVolume)
    case None =>
    case Some(j) => HierarchyAnyBound(vols[j], vols, a - 1, b - 1);
  }

  /**
   * The depth is 1 exactly when no listed volume carries the mother's name,
   * and otherwise one more than the depth of the first volume that does.
   */
  lemma DepthOfMother(vol: PassiveMaterialVolume, vols: seq<PassiveMaterialVolume>)
    requires Acyclic(vols)
    ensures Depth(vol, vols) == 1 <==> MotherIndex(vols, vol.motherVolume).None?
    ensures MotherIndex(vols, vol.motherVolume).Some? ==>
              Depth(vol, vols) == Depth(vols[MotherIndex(vols, vol.motherVolume).value], vols) + 1
  {
    match MotherIndex(vols, vol.motherVolume)
    case None =>
    case Some(j) =>
      ChainOfAny(vols[j], vols);
      HierarchyAnyBound(vols[j], vols, |vols|, |vols| + 1);
  }

  // ---------------------------------------------------------------------------
  // The sort
  // ---------------------------------------------------------------------------

  /** Depths never decrease along s. */
  ghost predicate SortedByDepth(s: seq<PassiveMaterialVolume>, vols: seq<PassiveMaterialVolume>)
    requires Acyclic(vols)
  {
    forall a, b :: 0 <= a < b < |s| ==> Depth(s[a], vols) <= Depth(s[b], vols)
  }

  /**
   * std::sort with the comparator hierarchy(lhs, volumes) < hierarchy(rhs,
   * volumes), where volumes is the list as it was before sorting.  The
   * algorithm here is an insertion sort; what it promises is what std::sort
   * promises: a permutation ordered by the comparator.
   */
  method SortByHierarchy(s: seq<PassiveMaterialVolume>, volumes: seq<PassiveMaterialVolume>) returns (r: seq<PassiveMaterialVolume>)
    requires Acyclic(volumes)
    ensures multiset(r) == multiset(s)
    ensures SortedByDepth(r, volumes)
  {
    r := s;
    var i := 0;
    while i < |r|
      invariant i <= |r| == |s|
      invariant multiset(r) == multiset(s)
      invariant SortedPrefix(r, volumes, i)
    {
      StartInsert(r, volumes, i);
      var j := i;
      while j > 0 && Depth(r[j], volumes) < Depth(r[j - 1], volumes)
        invariant j <= i < |r| == |s|
        invariant multiset(r) == multiset(s)
        invariant Inserting(r, volumes, i, j)
      {
        SwapStep(r, volumes, i, j);
        r := Swap(r, j - 1, j);
        j := j - 1;
      }
      EndInsert(r, volumes, i, j);
      i := i + 1;
    }
  }

  /** The first i volumes of r are sorted by depth. */
  ghost predicate SortedPrefix(r: seq<PassiveMaterialVolume>, vols: seq<PassiveMaterialVolume>, i: nat)
    requires Acyclic(vols)
  {
    i <= |r| && forall a, b :: 0 <= a < b < i ==> Depth(r[a], vols) <= Depth(r[b], vols)
  }

  /**
   * The volume taken from position i has moved down to j: the rest of the
   * first i + 1 volumes is sorted, and it is no deeper than those after it.
   */
  ghost predicate Inserting(r: seq<PassiveMaterialVolume>, vols: seq<PassiveMaterialVolume>, i: nat, j: nat)
    requires Acyclic(vols)
  {
    j <= i < |r| &&
    (forall a, b :: 0 <= a < b <= i && a != j && b != j ==> Depth(r[a], vols) <= Depth(r[b], vols)) &&
    (forall b :: j < b <= i ==> Depth(r[j], vols) <= Depth(r[b], vols))
  }

  lemma StartInsert(r: seq<PassiveMaterialVolume>, vols: seq<PassiveMaterialVolume>, i: nat)
    requires Acyclic(vols) && SortedPrefix(r, vols, i) && i < |r|
    ensures Inserting(r, vols, i, i)
  {
  }

  lemma SwapStep(r: seq<PassiveMaterialVolume>, vols: seq<PassiveMaterialVolume>, i: nat, j: nat)
    requires Acyclic(vols) && Inserting(r, vols, i, j) && 0 < j
    requires Depth(r[j], vols) < Depth(r[j - 1], vols)
    ensures Inserting(Swap(r, j - 1, j), vols, i, j - 1)
  {
  }

  lemma EndInsert(r: seq<PassiveMaterialVolume>, vols: seq<PassiveMaterialVolume>, i: nat, j: nat)
    requires Acyclic(vols) && Inserting(r, vols, i, j)
    requires j == 0 || Depth(r[j - 1], vols) <= Depth(r[j], vols)
    ensures SortedPrefix(r, vols, i + 1)
  {
  }

  /** s with the elements at a and b exchanged. */
  function Swap(s: seq<PassiveMaterialVolume>, a: nat, b: nat): (r: seq<PassiveMaterialVolume>)
    requires a < |s| && b < |s|
    ensures |r| == |s| && r[a] == s[b] && r[b] == s[a]
    ensures forall k :: 0 <= k < |s| && k != a && k != b ==> r[k] == s[k]
    ensures multiset(r) == multiset(s)
  {
    s[a := s[b]][b := s[a]]
  }

  /**
   * In a list sorted by depth, every copy of a volume's mother comes before
   * the volume, and the mother is in the list when it was among the volumes.
   */
  lemma MotherBeforeDependant(r: seq<PassiveMaterialVolume>, vols: seq<PassiveMaterialVolume>, i: nat)
    requires Acyclic(vols) && SortedByDepth(r, vols) && multiset(r) == multiset(vols)
    requires i < |r| && MotherIndex(vols, r[i].motherVolume).Some?
    ensures vols[MotherIndex(vols, r[i].motherVolume).value] in r
    ensures forall k :: 0 <= k < |r| && r[k] == vols[MotherIndex(vols, r[i].motherVolume).value] ==> k < i
  {
    var mother := vols[MotherIndex(vols, r[i].motherVolume).value];
    DepthOfMother(r[i], vols);
    assert mother in multiset(vols);
    forall k | 0 <= k < |r| && r[k] == mother
      ensures k < i
    {
      SortedOrder(r, vols, k, i);
    }
  }

  /** In a sorted list a strictly smaller depth sits strictly earlier. */
  lemma SortedOrder(r: seq<PassiveMaterialVolume>, vols: seq<PassiveMaterialVolume>, a: nat, b: nat)
    requires Acyclic(vols) && SortedByDepth(r, vols)
    requires a < |r| && b < |r| && Depth(r[a], vols) < Depth(r[b], vols)
    ensures a < b
  {
  }

  // ---------------------------------------------------------------------------
  // The construction
  // ---------------------------------------------------------------------------

  class PassiveMaterialConstructionG4 {
    /** passive_volumes_ */
    var passiveVolumes: seq<PassiveMaterialVolume>
    /** The volumes whose buildVolume has been called, in call order. */
    var built: seq<PassiveMaterialVolume>

    constructor ()
      ensures passiveVolumes == [] && built == []
    {
      passiveVolumes := [];
      built := [];
    }

    /**
     * registerVolumes: one volume per passive configuration, appended in
     * order, then all volumes sorted by depth.
     */
    method RegisterVolumes(configs: seq<PassiveConfig>)
      requires Acyclic(passiveVolumes + VolumesOf(configs))
      modifies this`passiveVolumes
      ensures multiset(passiveVolumes) == multiset(old(passiveVolumes) + VolumesOf(configs))
      ensures SortedByDepth(passiveVolumes, old(passiveVolumes) + VolumesOf(configs))
    {
      var i := 0;
      while i < |configs|
        invariant i <= |configs|
        invariant passiveVolumes == old(passiveVolumes) + VolumesOf(configs[..i])
      {
        assert configs[..i + 1] == configs[..i] + [configs[i]];
        VolumesOfAppend(configs[..i], [configs[i]]);
        passiveVolumes := passiveVolumes + [VolumeOf(configs[i])];
        i := i + 1;
      }
      assert configs[..i] == configs;
      var volumes := passiveVolumes;
      passiveVolumes := SortByHierarchy(passiveVolumes, volumes);
    }

    /** buildVolumes: buildVolume on every volume once, in list order. */
    method BuildVolumes()
      modifies this`built
      ensures built == old(built) + passiveVolumes
    {
      var k := 0;
      while k < |passiveVolumes|
        invariant k <= |passiveVolumes|
        invariant built == old(built) + passiveVolumes[..k]
      {
        built := built + [passiveVolumes[k]];
        k := k + 1;
      }
      assert passiveVolumes[..k] == passiveVolumes;
    }
  }

  /** The volumes created from the configurations, in order. */
  function VolumesOf(configs: seq<PassiveConfig>): seq<PassiveMaterialVolume>
  {
    seq(|configs|, k requires 0 <= k < |configs| => VolumeOf(configs[k]))
  }

  /** Creating the volumes of two batches of configurations appends the volumes of the second to those of the first. */
  lemma VolumesOfAppend(a: seq<PassiveConfig>, b: seq<PassiveConfig>)
    ensures VolumesOf(a + b) == VolumesOf(a) + VolumesOf(b)
  {
  }
}
