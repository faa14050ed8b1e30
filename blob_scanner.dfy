/**
  Memory-requirement tallying of the blob loader tool: every allocated ELF
  section of a blob adds its size to the group of each processor whose flag it
  carries, and to the "Data" or "Empty" allocation-type group by its type. A
  category is a map from group name to the requirements of the group with their
  running total, plus the running total of the whole category.
*/
module BlobScanner {
  import opened Wrappers

  // ELF section flags and types (ELF specification, section header table)
  const SHF_ALLOC: bv64 := 0x2
  const SHF_EXECINSTR: bv64 := 0x4
  const SHT_PROGBITS: nat := 1
  const SHT_NOBITS: nat := 8

  const DataGroup: string := "Data (backed by blob data)"
  const EmptyGroup: string := "Empty (not backed by blob data)"

  /** The fields of elf::SectionHeader the scan reads. */
  datatype SectionHeader = SectionHeader(flags: bv64, sectionType: nat, size: nat)

  /** MemoryRequirementsGroup::IndividualRequirement */
  datatype Requirement = Requirement(index: nat, header: SectionHeader)

  /** MemoryRequirementsGroup */
  datatype Group = Group(requirements: seq<Requirement>, total: nat)

  /** The value of a MemoryRequirementsCategory: its group map and its total. */
  datatype Tally = Tally(groups: map<string, Group>, total: nat)

  /** A processor map entry: processor name and the section flag that marks it. */
  type ProcessorMap = seq<(string, bv64)>

  /** defaultProcMap; the three VPU processor flags are defined by the ELF library. */
  function DefaultProcMap(procDpu: bv64, procDma: bv64, procShave: bv64): ProcessorMap {
    [("EXEC", SHF_EXECINSTR), ("DPU", procDpu), ("DMA", procDma), ("SHAVE", procShave)]
  }

  function SumSizes(reqs: seq<Requirement>): nat {
    if reqs == [] then 0 else SumSizes(reqs[..|reqs| - 1]) + reqs[|reqs| - 1].header.size
  }

  /** `mMap[name]`, which default-constructs a missing group. */
  function GroupOrEmpty(groups: map<string, Group>, name: string): Group {
    if name in groups then groups[name] else Group([], 0)
  }

  /** The sum of the totals of the groups named in `order`. */
  function SumTotals(groups: map<string, Group>, order: seq<string>): nat {
    if order == [] then 0
    else SumTotals(groups, order[..|order| - 1]) + GroupOrEmpty(groups, order[|order| - 1]).total
  }

  /**
    The category invariant: `order` lists each group once, every group's total is the
    sum of its requirements' sizes and the category total is the sum of the group totals.
  */
  ghost predicate TallyValid(t: Tally, order: seq<string>) {
    && Distinct(order)
    && (forall n :: n in t.groups <==> n in order)
    && GroupTotalsValid(t.groups)
    && t.total == SumTotals(t.groups, order)
  }

  ghost predicate Distinct(order: seq<string>) {
    forall i, j :: 0 <= i < j < |order| ==> order[i] != order[j]
  }

  /** Every group's total is the sum of its requirements' sizes. */
  ghost predicate GroupTotalsValid(groups: map<string, Group>) {
    forall n :: n in groups ==> groups[n].total == SumSizes(groups[n].requirements)
  }

  /** `addRequirementToGroup` on the value of a category. */
  function Add(t: Tally, name: string, req: Requirement): Tally {
    var g := GroupOrEmpty(t.groups, name);
    Tally(t.groups[name := Group(g.requirements + [req], g.total + req.header.size)],
          t.total + req.header.size)
  }

  function GrowOrder(order: seq<string>, name: string): seq<string> {
    if name in order then order else order + [name]
  }

  lemma {:induction false} SumTotalsOfUnlisted(groups: map<string, Group>, order: seq<string>, name: string, g: Group)
    requires name !in order
    ensures SumTotals(groups[name := g], order) == SumTotals(groups, order)
  {
    if order != [] {
      SumTotalsOfUnlisted(groups, order[..|order| - 1], name, g);
    }
  }

  lemma {:induction false} SumTotalsOfListed(groups: map<string, Group>, order: seq<string>, name: string, g: Group)
    requires name in order
    requires Distinct(order)
    ensures SumTotals(groups[name := g], order) + GroupOrEmpty(groups, name).total
            == SumTotals(groups, order) + g.total
  {
    var init := order[..|order| - 1];
    if order[|order| - 1] == name {
      assert name !in init;
      SumTotalsOfUnlisted(groups, init, name, g);
    } else {
      assert name in init;
      SumTotalsOfListed(groups, init, name, g);
    }
  }

  lemma GrowOrderDistinct(order: seq<string>, name: string)
    requires Distinct(order)
    ensures Distinct(GrowOrder(order, name))
  {
    if name !in order {
      var order' := order + [name];
      forall i, j | 0 <= i < j < |order'|
        ensures order'[i] != order'[j]
      {
        if j == |order| {
          assert order'[i] == order[i];
        }
      }
    }
  }

  lemma AddKeepsGroupTotals(t: Tally, name: string, req: Requirement)
    requires GroupTotalsValid(t.groups)
    ensures GroupTotalsValid(Add(t, name, req).groups)
  {
    var g := GroupOrEmpty(t.groups, name);
    var g' := Group(g.requirements + [req], g.total + req.header.size);
    assert g'.total == SumSizes(g'.requirements) by {
      SumSizesAppend(g.requirements, req);
    }
    GroupTotalsUpdate(t.groups, name, g');
  }

  lemma GroupTotalsUpdate(groups: map<string, Group>, name: string, g: Group)
    requires GroupTotalsValid(groups) && g.total == SumSizes(g.requirements)
    ensures GroupTotalsValid(groups[name := g])
  {
  }

  lemma AddKeepsNames(t: Tally, order: seq<string>, name: string, req: Requirement)
    requires forall n :: n in t.groups <==> n in order
    ensures forall n :: n in Add(t, name, req).groups <==> n in GrowOrder(order, name)
  {
  }

  /** The category total grows by the size added to the group. */
  lemma AddKeepsSum(t: Tally, order: seq<string>, name: string, req: Requirement)
    requires Distinct(order) && (forall n :: n in t.groups <==> n in order)
    requires t.total == SumTotals(t.groups, order)
    ensures Add(t, name, req).total == SumTotals(Add(t, name, req).groups, GrowOrder(order, name))
  {
    var g := GroupOrEmpty(t.groups, name);
    var g' := Group(g.requirements + [req], g.total + req.header.size);
    assert Add(t, name, req).groups == t.groups[name := g'];
    if name in order {
      SumTotalsOfListed(t.groups, order, name, g');
    } else {
      var order' := order + [name];
      SumTotalsOfUnlisted(t.groups, order, name, g');
      assert order'[..|order|] == order;
    }
  }

  lemma ValidFromParts(t: Tally, order: seq<string>)
    requires Distinct(order)
    requires forall n :: n in t.groups <==> n in order
    requires GroupTotalsValid(t.groups)
    requires t.total == SumTotals(t.groups, order)
    ensures TallyValid(t, order)
  {
  }

  /** Adding a requirement keeps every group total and the category total consistent. */
  lemma AddPreservesValid(t: Tally, order: seq<string>, name: string, req: Requirement)
    requires TallyValid(t, order)
    ensures TallyValid(Add(t, name, req), GrowOrder(order, name))
  {
    GrowOrderDistinct(order, name);
    AddKeepsNames(t, order, name, req);
    AddKeepsGroupTotals(t, name, req);
    AddKeepsSum(t, order, name, req);
    ValidFromParts(Add(t, name, req), GrowOrder(order, name));
  }

  class MemoryRequirementsCategory {
    const name: string
    var groups: map<string, Group>
    var total: nat
    ghost var order: seq<string>   // group names in order of creation

    function State(): Tally
      reads this
    {
      Tally(groups, total)
    }

    ghost predicate Valid()
      reads this
    {
      TallyValid(State(), order)
    }

    constructor (categoryName: string)
      ensures Valid() && name == categoryName && State() == Tally(map[], 0)
    {
      name := categoryName;
      groups := map[];
      total := 0;
      order := [];
    }

    method AddRequirementToGroup(groupName: string, req: Requirement)
      requires Valid()
      modifies this
      ensures Valid()
      ensures State() == Add(old(State()), groupName, req)
      ensures groupName in groups
      ensures groups[groupName].requirements == GroupOrEmpty(old(groups), groupName).requirements + [req]
      ensures groups[groupName].total == GroupOrEmpty(old(groups), groupName).total + req.header.size
      ensures total == old(total) + req.header.size
      ensures forall n :: n != groupName ==> (n in groups <==> n in old(groups))
      ensures forall n :: n != groupName && n in groups ==> groups[n] == old(groups)[n]
    {
      AddPreservesValid(State(), order, groupName, req);
      var g := GroupOrEmpty(groups, groupName);
      groups := groups[groupName := Group(g.requirements + [req], g.total + req.header.size)];
      total := total + req.header.size;
      order := GrowOrder(order, groupName);
    }

    function GetTotalRequired(): (r: nat)
      reads this
      requires Valid()
      ensures r == SumTotals(groups, order)
    {
      total
    }
  }

  predicate HasFlag(flags: bv64, flag: bv64) {
    flags & flag != 0
  }

  /** The inner loop over the processor map for one requirement. */
  function AddToProcessorGroups(t: Tally, procMap: ProcessorMap, req: Requirement): Tally {
    if procMap == [] then t
    else
      var prev := AddToProcessorGroups(t, procMap[..|procMap| - 1], req);
      var (proc, flag) := procMap[|procMap| - 1];
      if HasFlag(req.header.flags, flag) then Add(prev, proc, req) else prev
  }

  /** The processor category after scanning `sections` (section i has index i). */
  function ScanByProcessor(sections: seq<SectionHeader>, procMap: ProcessorMap): Tally {
    if sections == [] then Tally(map[], 0)
    else
      var n := |sections| - 1;
      var prev := ScanByProcessor(sections[..n], procMap);
      if HasFlag(sections[n].flags, SHF_ALLOC) then AddToProcessorGroups(prev, procMap, Requirement(n, sections[n]))
      else prev
  }

  /** The allocation-type category after scanning `sections`. */
  function ScanByAllocationType(sections: seq<SectionHeader>): Tally {
    if sections == [] then Tally(map[], 0)
    else
      var n := |sections| - 1;
      var prev := ScanByAllocationType(sections[..n]);
      if HasFlag(sections[n].flags, SHF_ALLOC) then AddByAllocationType(prev, Requirement(n, sections[n])) else prev
  }

  /** An allocated section goes to the "Data" group if PROGBITS, to "Empty" if NOBITS. */
  function AddByAllocationType(t: Tally, req: Requirement): Tally {
    if req.header.sectionType == SHT_PROGBITS then Add(t, DataGroup, req)
    else if req.header.sectionType == SHT_NOBITS then Add(t, EmptyGroup, req)
    else t
  }

  lemma ScanStep(sections: seq<SectionHeader>, procMap: ProcessorMap, i: nat)
    requires i < |sections|
    ensures var req := Requirement(i, sections[i]);
            && ScanByProcessor(sections[..i + 1], procMap)
               == (if HasFlag(sections[i].flags, SHF_ALLOC)
                   then AddToProcessorGroups(ScanByProcessor(sections[..i], procMap), procMap, req)
                   else ScanByProcessor(sections[..i], procMap))
            && ScanByAllocationType(sections[..i + 1])
               == (if HasFlag(sections[i].flags, SHF_ALLOC)
                   then AddByAllocationType(ScanByAllocationType(sections[..i]), req)
                   else ScanByAllocationType(sections[..i]))
  {
    assert sections[..i + 1][..i] == sections[..i];
  }

  lemma AddToProcessorGroupsStep(t: Tally, procMap: ProcessorMap, k: nat, req: Requirement)
    requires k < |procMap|
    ensures AddToProcessorGroups(t, procMap[..k + 1], req)
            == var prev := AddToProcessorGroups(t, procMap[..k], req);
               if HasFlag(req.header.flags, procMap[k].1) then Add(prev, procMap[k].0, req) else prev
  {
    assert procMap[..k + 1][..k] == procMap[..k];
  }

  /** The constructor's inner loop: the requirement goes to the group of every processor whose flag
      the section carries. */
  method AddForEachProcessor(category: MemoryRequirementsCategory, procMap: ProcessorMap, req: Requirement)
    requires category.Valid()
    modifies category
    ensures category.Valid()
    ensures category.State() == AddToProcessorGroups(old(category.State()), procMap, req)
  {
    var k := 0;
    while k < |procMap|
      invariant 0 <= k <= |procMap|
      invariant category.Valid()
      invariant category.State() == AddToProcessorGroups(old(category.State()), procMap[..k], req)
    {
      AddToProcessorGroupsStep(old(category.State()), procMap, k, req);
      if HasFlag(req.header.flags, procMap[k].1) {
        category.AddRequirementToGroup(procMap[k].0, req);
      }
      k := k + 1;
    }
    assert procMap[..k] == procMap;
  }

  /** The constructor's allocation-type branch for one allocated section. */
  method AddForAllocationType(category: MemoryRequirementsCategory, req: Requirement)
    requires category.Valid()
    modifies category
    ensures category.Valid()
    ensures category.State() == AddByAllocationType(old(category.State()), req)
  {
    if req.header.sectionType == SHT_PROGBITS {
      category.AddRequirementToGroup(DataGroup, req);
    }
    if req.header.sectionType == SHT_NOBITS {
      category.AddRequirementToGroup(EmptyGroup, req);
    }
  }

  class Scanner {
    const processorRequirements: MemoryRequirementsCategory
    const allocationTypeRequirements: MemoryRequirementsCategory

    /** The BlobScanner constructor's loop over the section headers of the blob. */
    constructor (sections: seq<SectionHeader>, procMap: ProcessorMap)
      ensures fresh(processorRequirements) && fresh(allocationTypeRequirements)
      ensures processorRequirements != allocationTypeRequirements
      ensures processorRequirements.Valid() && allocationTypeRequirements.Valid()
      ensures processorRequirements.name == "Processor"
      ensures allocationTypeRequirements.name == "Allocation type"
      ensures processorRequirements.State() == ScanByProcessor(sections, procMap)
      ensures allocationTypeRequirements.State() == ScanByAllocationType(sections)
    {
      var byProc := new MemoryRequirementsCategory("Processor");
      var byAlloc := new MemoryRequirementsCategory("Allocation type");
      var i := 0;
      while i < |sections|
        invariant 0 <= i <= |sections|
        invariant byProc.Valid() && byAlloc.Valid()
        invariant byProc.name == "Processor" && byAlloc.name == "Allocation type"
        invariant byProc.State() == ScanByProcessor(sections[..i], procMap)
        invariant byAlloc.State() == ScanByAllocationType(sections[..i])
      {
        ScanStep(sections, procMap, i);
        var header := sections[i];
        if HasFlag(header.flags, SHF_ALLOC) {
          var req := Requirement(i, header);
          AddForEachProcessor(byProc, procMap, req);
          AddForAllocationType(byAlloc, req);
        }
        i := i + 1;
      }
      assert sections[..i] == sections;
      processorRequirements := byProc;
      allocationTypeRequirements := byAlloc;
    }
  }

  // Reference definitions of what the scan counts.

  /** The number of processor entries whose flag a section carries. */
  function ProcessorMatches(flags: bv64, procMap: ProcessorMap): nat {
    if procMap == [] then 0
    else ProcessorMatches(flags, procMap[..|procMap| - 1]) + (if HasFlag(flags, procMap[|procMap| - 1].1) then 1 else 0)
  }

  /** Allocated sections, each counted once per processor flag it carries. */
  function ProcessorDemand(sections: seq<SectionHeader>, procMap: ProcessorMap): nat {
    if sections == [] then 0
    else
      var s := sections[|sections| - 1];
      ProcessorDemand(sections[..|sections| - 1], procMap)
        + (if HasFlag(s.flags, SHF_ALLOC) then s.size * ProcessorMatches(s.flags, procMap) else 0)
  }

  /** The allocated sections of the given type, as requirements. */
  function AllocatedOfType(sections: seq<SectionHeader>, sectionType: nat): seq<Requirement> {
    if sections == [] then []
    else
      var n := |sections| - 1;
      var prev := AllocatedOfType(sections[..n], sectionType);
      if HasFlag(sections[n].flags, SHF_ALLOC) && sections[n].sectionType == sectionType
      then prev + [Requirement(n, sections[n])] else prev
  }

  lemma {:induction false} AddToProcessorGroupsTotal(t: Tally, procMap: ProcessorMap, req: Requirement)
    ensures AddToProcessorGroups(t, procMap, req).total == t.total + req.header.size * ProcessorMatches(req.header.flags, procMap)
  {
    if procMap != [] {
      var k := |procMap| - 1;
      AddToProcessorGroupsTotal(t, procMap[..k], req);
      var m := ProcessorMatches(req.header.flags, procMap[..k]);
      if HasFlag(req.header.flags, procMap[k].1) {
        assert ProcessorMatches(req.header.flags, procMap) == m + 1;
        assert req.header.size * (m + 1) == req.header.size * m + req.header.size;
      } else {
        assert ProcessorMatches(req.header.flags, procMap) == m;
      }
    }
  }

  /** The processor total counts every allocated section once per matching processor, which
      over-counts a section two processors share. */
  lemma {:induction false} ProcessorTotal(sections: seq<SectionHeader>, procMap: ProcessorMap)
    ensures ScanByProcessor(sections, procMap).total == ProcessorDemand(sections, procMap)
  {
    if sections != [] {
      var n := |sections| - 1;
      ProcessorTotal(sections[..n], procMap);
      AddToProcessorGroupsTotal(ScanByProcessor(sections[..n], procMap), procMap, Requirement(n, sections[n]));
    }
  }

  /** The "Data" group holds exactly the allocated PROGBITS sections and the "Empty" group exactly
      the allocated NOBITS sections, in section order. */
  lemma {:induction false} AllocationGroup(sections: seq<SectionHeader>, groupName: string, sectionType: nat)
    requires (groupName == DataGroup && sectionType == SHT_PROGBITS) || (groupName == EmptyGroup && sectionType == SHT_NOBITS)
    ensures GroupOrEmpty(ScanByAllocationType(sections).groups, groupName).requirements
            == AllocatedOfType(sections, sectionType)
  {
    if sections != [] {
      var n := |sections| - 1;
      AllocationGroup(sections[..n], groupName, sectionType);
      var prev := AllocatedOfType(sections[..n], sectionType);
      assert (prev + [Requirement(n, sections[n])])[..|prev|] == prev;
    }
  }

  /** No section creates a group other than "Data" and "Empty". */
  lemma {:induction false} AllocationGroupNames(sections: seq<SectionHeader>)
    ensures ScanByAllocationType(sections).groups.Keys <= {DataGroup, EmptyGroup}
  {
    if sections != [] {
      AllocationGroupNames(sections[..|sections| - 1]);
    }
  }

  lemma SumSizesAppend(reqs: seq<Requirement>, req: Requirement)
    ensures SumSizes(reqs + [req]) == SumSizes(reqs) + req.header.size
  {
    assert (reqs + [req])[..|reqs|] == reqs;
  }

  /** The allocation-type total is the size of all allocated PROGBITS and NOBITS sections. */
  lemma {:induction false} AllocationTotal(sections: seq<SectionHeader>)
    ensures ScanByAllocationType(sections).total
            == SumSizes(AllocatedOfType(sections, SHT_PROGBITS)) + SumSizes(AllocatedOfType(sections, SHT_NOBITS))
  {
    if sections != [] {
      var n := |sections| - 1;
      AllocationTotal(sections[..n]);
      var req := Requirement(n, sections[n]);
      SumSizesAppend(AllocatedOfType(sections[..n], SHT_PROGBITS), req);
      SumSizesAppend(AllocatedOfType(sections[..n], SHT_NOBITS), req);
    }
  }

  /** The processor map is an unordered_map: each processor name occurs once. */
  predicate DistinctNames(procMap: ProcessorMap) {
    forall i, j :: 0 <= i < j < |procMap| ==> procMap[i].0 != procMap[j].0
  }

  /** The allocated sections carrying `flag`, as requirements. */
  function AllocatedWithFlag(sections: seq<SectionHeader>, flag: bv64): seq<Requirement> {
    if sections == [] then []
    else
      var n := |sections| - 1;
      var prev := AllocatedWithFlag(sections[..n], flag);
      if HasFlag(sections[n].flags, SHF_ALLOC) && HasFlag(sections[n].flags, flag)
      then prev + [Requirement(n, sections[n])] else prev
  }

  /** A group no processor of the map is named after is left alone. */
  lemma {:induction false} AddToProcessorGroupsElsewhere(t: Tally, procMap: ProcessorMap, req: Requirement, name: string)
    requires forall i :: 0 <= i < |procMap| ==> procMap[i].0 != name
    ensures GroupOrEmpty(AddToProcessorGroups(t, procMap, req).groups, name) == GroupOrEmpty(t.groups, name)
  {
    if procMap != [] {
      AddToProcessorGroupsElsewhere(t, procMap[..|procMap| - 1], req, name);
    }
  }

  /** Processor `procMap[k]`'s group gains the requirement exactly when the section carries its flag. */
  lemma {:induction false} AddToProcessorGroupsOf(t: Tally, procMap: ProcessorMap, req: Requirement, k: nat)
    requires DistinctNames(procMap) && k < |procMap|
    ensures GroupOrEmpty(AddToProcessorGroups(t, procMap, req).groups, procMap[k].0).requirements
            == GroupOrEmpty(t.groups, procMap[k].0).requirements
               + (if HasFlag(req.header.flags, procMap[k].1) then [req] else [])
  {
    var n := |procMap| - 1;
    var init := procMap[..n];
    if k == n {
      AddToProcessorGroupsElsewhere(t, init, req, procMap[k].0);
    } else {
      AddToProcessorGroupsOf(t, init, req, k);
      assert procMap[n].0 != procMap[k].0;
    }
  }

  /** A processor's group holds exactly the allocated sections carrying its flag, in section order. */
  lemma {:induction false} ProcessorGroup(sections: seq<SectionHeader>, procMap: ProcessorMap, k: nat)
    requires DistinctNames(procMap) && k < |procMap|
    ensures GroupOrEmpty(ScanByProcessor(sections, procMap).groups, procMap[k].0).requirements
            == AllocatedWithFlag(sections, procMap[k].1)
  {
    if sections != [] {
      var n := |sections| - 1;
      ProcessorGroup(sections[..n], procMap, k);
      if HasFlag(sections[n].flags, SHF_ALLOC) {
        AddToProcessorGroupsOf(ScanByProcessor(sections[..n], procMap), procMap, Requirement(n, sections[n]), k);
      }
    }
  }
}
