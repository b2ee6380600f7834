/**
 Provider matching (internal/matching/matcher.go): filters, sorting, offset pagination, and
 recommendations when nothing matches.
 */
module Matching {
  import opened Outcomes

  const DEFAULT_LIMIT: int := 20
  const MAX_LIMIT: int := 100

  // The price is the integer read from the node's price string.
  datatype Node = Node(
    id: string, gpuType: string, gpuModel: string, totalGpus: int, availableGpus: int,
    memoryGb: int, totalCpuCores: int, price: int)

  datatype SortKey = ByPrice | ByMemory

  datatype MatchRequest = MatchRequest(
    gpuType: string, gpuModel: string, minGpuCount: int, minMemoryGb: int, minCpuCores: int,
    maxPrice: Option<int>, sortBy: string, limit: int, offset: int)

  datatype MatchResult = MatchResult(nodes: seq<Node>, totalCount: nat, recommendations: seq<Node>)

  // ---- Filters ----

  predicate Offered(n: Node, req: MatchRequest) {
    && n.totalGpus > 0
    && n.availableGpus > 0
    && (if req.gpuModel != "" then n.gpuModel == req.gpuModel else req.gpuType == "" || n.gpuType == req.gpuType)
  }

  predicate Suffices(n: Node, req: MatchRequest) {
    && (req.minMemoryGb > 0 ==> n.memoryGb >= req.minMemoryGb)
    && (req.minGpuCount > 0 ==> n.availableGpus >= req.minGpuCount)
    && (req.minCpuCores > 0 ==> n.totalCpuCores >= req.minCpuCores)
    && (req.maxPrice.Some? ==> n.price <= req.maxPrice.value)
  }

  predicate Wanted(n: Node, req: MatchRequest) { Offered(n, req) && Suffices(n, req) }

  function Keep(nodes: seq<Node>, p: Node -> bool): seq<Node> {
    if nodes == [] then []
    else
      var n := |nodes| - 1;
      Keep(nodes[..n], p) + (if p(nodes[n]) then [nodes[n]] else [])
  }

  // Exactly the nodes that pass, each as often as it is listed.
  lemma {:induction false} KeepCounts(nodes: seq<Node>, p: Node -> bool, n: Node)
    ensures multiset(Keep(nodes, p))[n] == if p(n) then multiset(nodes)[n] else 0
  {
    if nodes != [] {
      var front, last := nodes[..|nodes| - 1], nodes[|nodes| - 1];
      KeepCounts(front, p, n);
      assert nodes == front + [last];
    }
  }

  lemma {:induction false} KeepTwice(nodes: seq<Node>, p: Node -> bool, q: Node -> bool, both: Node -> bool)
    requires forall n :: both(n) == (p(n) && q(n))
    ensures Keep(Keep(nodes, p), q) == Keep(nodes, both)
  {
    if nodes != [] {
      var front, last := nodes[..|nodes| - 1], nodes[|nodes| - 1];
      KeepTwice(front, p, q, both);
      assert (Keep(front, p) + [last])[..|Keep(front, p)|] == Keep(front, p);
      assert Keep(nodes, p) == if p(last) then Keep(front, p) + [last] else Keep(front, p);
    }
  }

  function Candidates(nodes: seq<Node>, req: MatchRequest): seq<Node> { Keep(nodes, n => Wanted(n, req)) }

  method ApplyFilters(nodes: seq<Node>, req: MatchRequest) returns (filtered: seq<Node>)
    ensures filtered == Keep(nodes, n => Suffices(n, req))
  {
    filtered := [];
    var p := n => Suffices(n, req);
    for i := 0 to |nodes|
      invariant filtered == Keep(nodes[..i], p)
    {
      assert nodes[..i + 1][..i] == nodes[..i];
      var node := nodes[i];
      if req.minMemoryGb > 0 && node.memoryGb < req.minMemoryGb { continue; }
      if req.minGpuCount > 0 && node.availableGpus < req.minGpuCount { continue; }
      if req.minCpuCores > 0 && node.totalCpuCores < req.minCpuCores { continue; }
      if req.maxPrice.Some? && node.price > req.maxPrice.value { continue; }
      filtered := filtered + [node];
    }
    assert nodes[..|nodes|] == nodes;
  }

  // ---- Sorting ----

  function KeyOf(sortBy: string): SortKey { if sortBy == "memory" then ByMemory else ByPrice }

  // The highest memory, or the lowest price, first.
  predicate InOrder(a: Node, b: Node, key: SortKey) {
    match key
    case ByMemory => a.memoryGb >= b.memoryGb
    case ByPrice => a.price <= b.price
  }

  predicate Sorted(list: seq<Node>, key: SortKey) {
    forall i, j :: 0 <= i < j < |list| ==> InOrder(list[i], list[j], key)
  }

  // The library's sort: a sorted permutation, with equal nodes in an order of its own.
  type Sorter = f: (seq<Node>, SortKey) -> seq<Node> | IsSorter(f) ghost witness InsertionSort

  ghost predicate IsSorter(f: (seq<Node>, SortKey) -> seq<Node>) {
    forall list: seq<Node>, key: SortKey :: Sorted(f(list, key), key) && multiset(f(list, key)) == multiset(list)
  }

  function Insert(n: Node, list: seq<Node>, key: SortKey): seq<Node> {
    if list == [] || InOrder(n, list[0], key) then [n] + list else [list[0]] + Insert(n, list[1..], key)
  }

  function InsertionSort(list: seq<Node>, key: SortKey): (sorted: seq<Node>)
    ensures Sorted(sorted, key) && multiset(sorted) == multiset(list)
  {
    if list == [] then []
    else
      InsertSorts(list[0], InsertionSort(list[1..], key), key);
      InsertPermutes(list[0], InsertionSort(list[1..], key), key);
      assert list == [list[0]] + list[1..];
      Insert(list[0], InsertionSort(list[1..], key), key)
  }

  lemma {:induction false} InsertPermutes(n: Node, list: seq<Node>, key: SortKey)
    ensures multiset(Insert(n, list, key)) == multiset(list) + multiset{n}
  {
    if list != [] && !InOrder(n, list[0], key) {
      InsertPermutes(n, list[1..], key);
      assert list == [list[0]] + list[1..];
    }
  }

  lemma InsertMembers(n: Node, list: seq<Node>, key: SortKey, i: nat)
    requires i < |Insert(n, list, key)|
    ensures Insert(n, list, key)[i] == n || Insert(n, list, key)[i] in list
  {
    InsertPermutes(n, list, key);
    assert Insert(n, list, key)[i] in multiset(Insert(n, list, key));
  }

  lemma {:induction false} InsertSorts(n: Node, list: seq<Node>, key: SortKey)
    requires Sorted(list, key)
    ensures Sorted(Insert(n, list, key), key)
  {
    if list != [] && !InOrder(n, list[0], key) {
      var rest := Insert(n, list[1..], key);
      InsertSorts(n, list[1..], key);
      forall i | 0 <= i < |rest|
        ensures InOrder(list[0], rest[i], key)
      {
        InsertMembers(n, list[1..], key, i);
      }
    }
  }

  // ---- Pagination ----

  function EffectiveLimit(limit: int): (r: int)
    ensures 0 < r <= MAX_LIMIT
  {
    if limit <= 0 then DEFAULT_LIMIT else if limit > MAX_LIMIT then MAX_LIMIT else limit
  }

  function Paginate(nodes: seq<Node>, limit: int, offset: int): seq<Node> {
    var max := EffectiveLimit(limit);
    var start := if offset < 0 then 0 else offset;
    if start >= |nodes| then [] else nodes[start..Min(start + max, |nodes|)]
  }

  // The pages at offsets start, start + step, ..., one after another.
  function PagesFrom(nodes: seq<Node>, limit: int, start: nat, step: nat, pages: nat): seq<Node>
    decreases pages
  {
    if pages == 0 then []
    else Paginate(nodes, limit, start) + PagesFrom(nodes, limit, start + step, step, pages - 1)
  }

  lemma {:induction false} PagesJoin(nodes: seq<Node>, limit: int, start: nat, pages: nat)
    requires |nodes| <= start + pages * EffectiveLimit(limit)
    ensures PagesFrom(nodes, limit, start, EffectiveLimit(limit), pages)
         == if start >= |nodes| then [] else nodes[start..]
    decreases pages
  {
    var max := EffectiveLimit(limit);
    if pages > 0 {
      assert pages * max == (pages - 1) * max + max;
      PagesJoin(nodes, limit, start + max, pages - 1);
    }
  }

  lemma {:induction false} PagesAreShort(nodes: seq<Node>, limit: int, start: nat, step: nat, pages: nat)
    requires step >= EffectiveLimit(limit)
    ensures |PagesFrom(nodes, limit, start, step, pages)| <= Max(0, |nodes| - start)
    decreases pages
  {
    if pages > 0 {
      PagesAreShort(nodes, limit, start + step, step, pages - 1);
    }
  }

  // A client that advances the offset by the limit it asked for sees the whole list exactly when the
  // limit is not above the maximum or one page holds everything.
  lemma RequestedStepCovers(nodes: seq<Node>, limit: nat, pages: nat)
    requires limit > 0 && |nodes| <= pages * limit
    ensures PagesFrom(nodes, limit, 0, limit, pages) == nodes <==> limit <= MAX_LIMIT || |nodes| <= MAX_LIMIT
  {
    if limit <= MAX_LIMIT {
      PagesJoin(nodes, limit, 0, pages);
    } else if pages > 0 {
      PagesAreShort(nodes, limit, limit, limit, pages - 1);
      assert PagesFrom(nodes, limit, 0, limit, pages)
          == Paginate(nodes, limit, 0) + PagesFrom(nodes, limit, limit, limit, pages - 1);
    }
  }

  // Consecutive pages of the effective size list every wanted node, each as often as the node list
  // does, and nothing else: the nodes with GPUs that are of the type or model asked for and meet every
  // given minimum and the maximum price; the cheapest first, or on request those with the most memory.
  lemma PagesListAllWanted(nodes: seq<Node>, req: MatchRequest, sorter: Sorter, pages: nat)
    requires |nodes| <= pages * EffectiveLimit(req.limit)
    ensures var all := PagesFrom(sorter(Candidates(nodes, req), KeyOf(req.sortBy)), req.limit, 0, EffectiveLimit(req.limit), pages);
      && all == sorter(Candidates(nodes, req), KeyOf(req.sortBy))
      && (req.sortBy == "memory" ==> forall i, j :: 0 <= i < j < |all| ==> all[i].memoryGb >= all[j].memoryGb)
      && (req.sortBy != "memory" ==> forall i, j :: 0 <= i < j < |all| ==> all[i].price <= all[j].price)
      && (forall n :: multiset(all)[n] ==
            if && n.totalGpus > 0 && n.availableGpus > 0
               && (if req.gpuModel != "" then n.gpuModel == req.gpuModel else req.gpuType == "" || n.gpuType == req.gpuType)
               && (req.minMemoryGb <= 0 || n.memoryGb >= req.minMemoryGb)
               && (req.minGpuCount <= 0 || n.availableGpus >= req.minGpuCount)
               && (req.minCpuCores <= 0 || n.totalCpuCores >= req.minCpuCores)
               && (req.maxPrice == None || n.price <= req.maxPrice.value)
            then multiset(nodes)[n] else 0)
  {
    var kept := Candidates(nodes, req);
    var list := sorter(kept, KeyOf(req.sortBy));
    KeepShrinks(nodes, n => Wanted(n, req));
    assert |list| == |multiset(list)| == |multiset(kept)| == |kept|;
    PagesJoin(list, req.limit, 0, pages);
    InSortOrder(list, req.sortBy);
    forall n: Node
      ensures multiset(list)[n] == if Wanted(n, req) then multiset(nodes)[n] else 0
    {
      KeepCounts(nodes, x => Wanted(x, req), n);
    }
  }

  lemma InSortOrder(list: seq<Node>, sortBy: string)
    requires Sorted(list, KeyOf(sortBy))
    ensures sortBy == "memory" ==> forall i, j :: 0 <= i < j < |list| ==> list[i].memoryGb >= list[j].memoryGb
    ensures sortBy != "memory" ==> forall i, j :: 0 <= i < j < |list| ==> list[i].price <= list[j].price
  {
    assert forall i, j :: 0 <= i < j < |list| ==> InOrder(list[i], list[j], KeyOf(sortBy));
  }

  // One page: from the offset on, as many as were asked for from 1 to 100, 20 when nothing was.
  lemma PageExactly(nodes: seq<Node>, limit: int, offset: int)
    ensures var page := Paginate(nodes, limit, offset);
      var n := if limit <= 0 then 20 else if limit > 100 then 100 else limit;
      var start := if offset < 0 then 0 else offset;
      && |page| == (if start >= |nodes| then 0 else if |nodes| - start < n then |nodes| - start else n)
      && forall i :: 0 <= i < |page| ==> page[i] == nodes[start + i]
  {
  }

  lemma {:induction false} KeepShrinks(nodes: seq<Node>, p: Node -> bool)
    ensures |Keep(nodes, p)| <= |nodes|
  {
    if nodes != [] {
      KeepShrinks(nodes[..|nodes| - 1], p);
    }
  }

  // ---- Recommendations ----

  datatype Vendor = Nvidia | Amd | UnknownVendor

  datatype Family = Rtx40 | Rtx30 | Rtx20 | ASeries | HSeries | MiSeries | OtherFamily

  predicate OccursAt(s: string, part: string, i: nat) { i + |part| <= |s| && s[i..i + |part|] == part }

  predicate Contains(s: string, part: string) { exists i :: 0 <= i <= |s| && OccursAt(s, part, i) }

  function UpperChar(c: char): char { if 'a' <= c <= 'z' then (c as int - 32) as char else c }

  // strings.ToUpper, on ASCII text
  function ToUpper(s: string): string { seq(|s|, i requires 0 <= i < |s| => UpperChar(s[i])) }

  function VendorOf(gpuType: string): Vendor {
    var upper := ToUpper(gpuType);
    if Contains(upper, "RTX") || Contains(upper, "GTX") || Contains(upper, "A100")
       || Contains(upper, "H100") || Contains(upper, "V100") || Contains(upper, "TITAN") then Nvidia
    else if Contains(upper, "RX") || Contains(upper, "MI") then Amd
    else UnknownVendor
  }

  function FamilyOf(gpuType: string): Family {
    var upper := ToUpper(gpuType);
    if Contains(upper, "RTX 40") || Contains(upper, "RTX40") then Rtx40
    else if Contains(upper, "RTX 30") || Contains(upper, "RTX30") then Rtx30
    else if Contains(upper, "RTX 20") || Contains(upper, "RTX20") then Rtx20
    else if Contains(upper, "A100") then ASeries
    else if Contains(upper, "H100") then HSeries
    else if Contains(upper, "MI") then MiSeries
    else OtherFamily
  }

  // The same letters, each in either case.
  predicate SpelledAs(written: string, mark: string) {
    && |written| == |mark|
    && forall i :: 0 <= i < |mark| ==>
         written[i] == mark[i] || ('A' <= mark[i] <= 'Z' && written[i] as int == mark[i] as int + 32)
  }

  predicate NoSmallLetters(mark: string) { forall i :: 0 <= i < |mark| ==> !('a' <= mark[i] <= 'z') }

  lemma MarkOccurs(before: string, written: string, after: string, mark: string)
    requires SpelledAs(written, mark) && NoSmallLetters(mark)
    ensures Contains(ToUpper(before + written + after), mark)
  {
    var upper := ToUpper(before + written + after);
    forall i | 0 <= i < |mark|
      ensures upper[|before| + i] == mark[i]
    {
      assert (before + written + after)[|before| + i] == written[i];
    }
    assert OccursAt(upper, mark, |before|);
  }

  // A name with one of NVIDIA's marks anywhere, in either case, is NVIDIA's; with one of AMD's and none
  // of these, AMD's.
  lemma NamesOfVendors(before: string, written: string, after: string, mark: string)
    requires SpelledAs(written, mark)
    ensures mark in ["RTX", "GTX", "A100", "H100", "V100", "TITAN"] ==> VendorOf(before + written + after) == Nvidia
    ensures mark in ["RX", "MI"] && VendorOf(before + written + after) != Nvidia ==> VendorOf(before + written + after) == Amd
  {
    if mark in ["RTX", "GTX", "A100", "H100", "V100", "TITAN", "RX", "MI"] {
      MarkOccurs(before, written, after, mark);
    }
  }

  lemma NamesWithoutMarks(name: string)
    requires forall mark :: mark in ["RTX", "GTX", "A100", "H100", "V100", "TITAN"] ==> !Contains(ToUpper(name), mark)
    ensures VendorOf(name) != Nvidia
    ensures !Contains(ToUpper(name), "RX") && !Contains(ToUpper(name), "MI") ==> VendorOf(name) == UnknownVendor
  {
    var marks := ["RTX", "GTX", "A100", "H100", "V100", "TITAN"];
    assert marks[0] in marks && marks[1] in marks && marks[2] in marks && marks[3] in marks && marks[4] in marks && marks[5] in marks;
  }

  // The marks of the families, the first that occurs deciding.
  const FAMILY_MARKS: seq<(string, Family)> := [
    ("RTX 40", Rtx40), ("RTX40", Rtx40), ("RTX 30", Rtx30), ("RTX30", Rtx30), ("RTX 20", Rtx20), ("RTX20", Rtx20),
    ("A100", ASeries), ("H100", HSeries), ("MI", MiSeries)]

  lemma NamesOfFamilies(name: string, k: nat)
    requires k <= |FAMILY_MARKS| && (k < |FAMILY_MARKS| ==> Contains(ToUpper(name), FAMILY_MARKS[k].0))
    requires forall j :: 0 <= j < k ==> !Contains(ToUpper(name), FAMILY_MARKS[j].0)
    ensures FamilyOf(name) == if k < |FAMILY_MARKS| then FAMILY_MARKS[k].1 else OtherFamily
  {
    assert FAMILY_MARKS[0].0 == "RTX 40" && FAMILY_MARKS[1].0 == "RTX40" && FAMILY_MARKS[2].0 == "RTX 30";
    assert FAMILY_MARKS[3].0 == "RTX30" && FAMILY_MARKS[4].0 == "RTX 20" && FAMILY_MARKS[5].0 == "RTX20";
    assert FAMILY_MARKS[6].0 == "A100" && FAMILY_MARKS[7].0 == "H100" && FAMILY_MARKS[8].0 == "MI";
  }

  predicate SameVendor(n: Node, gpuType: string) { VendorOf(n.gpuType) == VendorOf(gpuType) }

  predicate SameFamily(n: Node, gpuType: string) { SameVendor(n, gpuType) && FamilyOf(n.gpuType) == FamilyOf(gpuType) }

  predicate CousinOf(n: Node, gpuType: string) { SameVendor(n, gpuType) && !SameFamily(n, gpuType) }

  predicate HasType(nodes: seq<Node>, gpuType: string) { exists i :: 0 <= i < |nodes| && nodes[i].gpuType == gpuType }

  // The first node of each type among those that satisfy p.
  function FirstOfTypes(nodes: seq<Node>, p: Node -> bool): seq<Node> {
    if nodes == [] then []
    else
      var n := |nodes| - 1;
      var earlier := FirstOfTypes(nodes[..n], p);
      if p(nodes[n]) && !HasType(earlier, nodes[n].gpuType) then earlier + [nodes[n]] else earlier
  }

  function Take3(nodes: seq<Node>): seq<Node> { if |nodes| > 3 then nodes[..3] else nodes }

  function Kin(nodes: seq<Node>, requested: string): seq<Node> { FirstOfTypes(nodes, n => SameFamily(n, requested)) }

  function Cousins(nodes: seq<Node>, requested: string): seq<Node> { FirstOfTypes(nodes, n => CousinOf(n, requested)) }

  lemma TypesOfBoth(a: seq<Node>, b: seq<Node>, gpuType: string)
    ensures HasType(a + b, gpuType) <==> HasType(a, gpuType) || HasType(b, gpuType)
  {
    if HasType(a, gpuType) {
      var i :| 0 <= i < |a| && a[i].gpuType == gpuType;
      assert (a + b)[i].gpuType == gpuType;
    }
    if HasType(b, gpuType) {
      var i :| 0 <= i < |b| && b[i].gpuType == gpuType;
      assert (a + b)[|a| + i].gpuType == gpuType;
    }
    if HasType(a + b, gpuType) {
      var i :| 0 <= i < |a + b| && (a + b)[i].gpuType == gpuType;
      assert i < |a| ==> a[i].gpuType == gpuType;
      assert i >= |a| ==> b[i - |a|].gpuType == gpuType;
    }
  }

  function Similar(nodes: seq<Node>, gpuType: string): seq<Node> {
    Take3(Kin(nodes, gpuType) + Cousins(nodes, gpuType))
  }

  lemma {:induction false} FirstOfTypesGrows(nodes: seq<Node>, p: Node -> bool, i: nat)
    requires i <= |nodes|
    ensures FirstOfTypes(nodes[..i], p) <= FirstOfTypes(nodes, p)
  {
    if i < |nodes| {
      FirstOfTypesGrows(nodes[..|nodes| - 1], p, i);
      assert nodes[..|nodes| - 1][..i] == nodes[..i];
    } else {
      assert nodes[..i] == nodes;
    }
  }

  predicate DistinctTypes(nodes: seq<Node>) {
    forall i, j :: 0 <= i < j < |nodes| ==> nodes[i].gpuType != nodes[j].gpuType
  }

  lemma {:induction false} FirstOfTypesSound(nodes: seq<Node>, p: Node -> bool)
    ensures var list := FirstOfTypes(nodes, p);
      && DistinctTypes(list)
      && (forall n :: n in list ==> n in nodes && p(n))
      && (forall n :: n in nodes && p(n) ==> HasType(list, n.gpuType))
  {
    if nodes != [] {
      var front, last := nodes[..|nodes| - 1], nodes[|nodes| - 1];
      FirstOfTypesSound(front, p);
      assert nodes == front + [last];
      var earlier, list := FirstOfTypes(front, p), FirstOfTypes(nodes, p);
      assert earlier <= list;
      forall n | n in nodes && p(n)
        ensures HasType(list, n.gpuType)
      {
        if n in front {
          var i :| 0 <= i < |earlier| && earlier[i].gpuType == n.gpuType;
          assert list[i].gpuType == n.gpuType;
        } else if !HasType(earlier, n.gpuType) {
          assert list[|earlier|].gpuType == n.gpuType;
        } else {
          var i :| 0 <= i < |earlier| && earlier[i].gpuType == n.gpuType;
          assert list[i].gpuType == n.gpuType;
        }
      }
    }
  }

  predicate SeenExactly(seen: set<string>, list: seq<Node>) {
    && (forall i :: 0 <= i < |list| ==> list[i].gpuType in seen)
    && (forall t :: t in seen ==> HasType(list, t))
  }

  lemma SeenGrows(seen: set<string>, list: seq<Node>, n: Node)
    requires SeenExactly(seen, list)
    ensures SeenExactly(seen + {n.gpuType}, list + [n])
  {
    forall t | t in seen + {n.gpuType}
      ensures HasType(list + [n], t)
    {
      if t == n.gpuType {
        assert (list + [n])[|list|].gpuType == t;
      } else {
        var i :| 0 <= i < |list| && list[i].gpuType == t;
        assert (list + [n])[i].gpuType == t;
      }
    }
  }

  // First pass: same vendor and same family.
  method RecommendKin(nodes: seq<Node>, requested: string) returns (recommendations: seq<Node>, seen: set<string>)
    ensures recommendations == Kin(nodes, requested)
    ensures SeenExactly(seen, recommendations)
  {
    recommendations, seen := [], {};
    for i := 0 to |nodes|
      invariant recommendations == Kin(nodes[..i], requested)
      invariant SeenExactly(seen, recommendations)
    {
      assert nodes[..i + 1][..i] == nodes[..i];
      var node := nodes[i];
      if node.gpuType in seen { continue; }
      if VendorOf(node.gpuType) == VendorOf(requested) && FamilyOf(node.gpuType) == FamilyOf(requested) {
        SeenGrows(seen, recommendations, node);
        recommendations := recommendations + [node];
        seen := seen + {node.gpuType};
      }
    }
    assert nodes[..|nodes|] == nodes;
  }

  lemma KinTypes(nodes: seq<Node>, requested: string, n: Node)
    requires n in nodes
    ensures HasType(Kin(nodes, requested), n.gpuType) <==> SameFamily(n, requested)
  {
    var kin := Kin(nodes, requested);
    FirstOfTypesSound(nodes, x => SameFamily(x, requested));
    forall j | 0 <= j < |kin|
      ensures SameFamily(kin[j], requested)
    {
      assert kin[j] in kin;
    }
  }

  // An unseen type of the vendor is a new cousin, and only that.
  lemma AddsCousin(nodes: seq<Node>, requested: string, seen: set<string>, i: nat)
    requires i < |nodes| && SeenExactly(seen, Kin(nodes, requested) + Cousins(nodes[..i], requested))
    ensures Cousins(nodes[..i + 1], requested)
         == Cousins(nodes[..i], requested)
          + if nodes[i].gpuType !in seen && SameVendor(nodes[i], requested) then [nodes[i]] else []
  {
    var kin, cousins, node := Kin(nodes, requested), Cousins(nodes[..i], requested), nodes[i];
    assert nodes[..i + 1][..i] == nodes[..i];
    KinTypes(nodes, requested, node);
    TypesOfBoth(kin, cousins, node.gpuType);
    SeenMeansListed(seen, kin + cousins, node.gpuType);
  }

  lemma SeenMeansListed(seen: set<string>, list: seq<Node>, gpuType: string)
    requires SeenExactly(seen, list)
    ensures gpuType in seen <==> HasType(list, gpuType)
  {
  }

  // Second pass: same vendor, until there are three.
  method RecommendCousins(nodes: seq<Node>, requested: string, kin: seq<Node>, seenKin: set<string>)
    returns (recommendations: seq<Node>)
    requires kin == Kin(nodes, requested) && |kin| < 3 && SeenExactly(seenKin, kin)
    ensures recommendations == Take3(kin + Cousins(nodes, requested))
  {
    recommendations := kin;
    var seen := seenKin;
    for i := 0 to |nodes|
      invariant |recommendations| < 3
      invariant recommendations == kin + Cousins(nodes[..i], requested)
      invariant SeenExactly(seen, recommendations)
    {
      AddsCousin(nodes, requested, seen, i);
      if nodes[i].gpuType in seen { continue; }
      if SameVendor(nodes[i], requested) {
        SeenGrows(seen, recommendations, nodes[i]);
        recommendations := recommendations + [nodes[i]];
        seen := seen + {nodes[i].gpuType};
        if |recommendations| >= 3 {
          ThreeAreEnough(nodes, requested, kin, recommendations, i + 1);
          return;
        }
      }
    }
    assert nodes[..|nodes|] == nodes;
  }

  lemma ThreeAreEnough(nodes: seq<Node>, requested: string, kin: seq<Node>, list: seq<Node>, i: nat)
    requires i <= |nodes| && list == kin + Cousins(nodes[..i], requested) && |list| == 3
    ensures Take3(kin + Cousins(nodes, requested)) == list
  {
    FirstOfTypesGrows(nodes, n => CousinOf(n, requested), i);
    assert list <= kin + Cousins(nodes, requested);
  }

  method GetSimilarGpus(nodes: seq<Node>, requested: string) returns (recommendations: seq<Node>)
    ensures recommendations == Similar(nodes, requested)
  {
    var seen;
    recommendations, seen := RecommendKin(nodes, requested);
    if |recommendations| < 3 {
      recommendations := RecommendCousins(nodes, requested, recommendations, seen);
    }
    if |recommendations| > 3 {
      recommendations := recommendations[..3];
    }
  }

  predicate FamilyFirst(list: seq<Node>, requested: string) {
    forall i, j :: 0 <= i < j < |list| && SameFamily(list[j], requested) ==> SameFamily(list[i], requested)
  }

  // At most three nodes of the list, of different types and of the requested vendor, the requested
  // family first.
  lemma SimilarAreSimilar(nodes: seq<Node>, requested: string)
    ensures var list := Similar(nodes, requested);
      |list| <= 3 && DistinctTypes(list) && FamilyFirst(list, requested)
    ensures forall i :: 0 <= i < |Similar(nodes, requested)| ==>
      Similar(nodes, requested)[i] in nodes && SameVendor(Similar(nodes, requested)[i], requested)
  {
    var kin, cousins := Kin(nodes, requested), Cousins(nodes, requested);
    FirstOfTypesSound(nodes, n => SameFamily(n, requested));
    FirstOfTypesSound(nodes, n => CousinOf(n, requested));
    forall i | 0 <= i < |kin|
      ensures kin[i] in nodes && SameFamily(kin[i], requested)
    {
      assert kin[i] in kin;
    }
    forall i | 0 <= i < |cousins|
      ensures cousins[i] in nodes && CousinOf(cousins[i], requested)
    {
      assert cousins[i] in cousins;
    }
  }

  // In the nodes' own fields.
  lemma SimilarByName(nodes: seq<Node>, requested: string, list: seq<Node>, i: nat, j: nat)
    requires list == Similar(nodes, requested) && i < j < |list|
    ensures |list| <= 3 && list[i] in nodes && list[j] in nodes && list[i].gpuType != list[j].gpuType
    ensures VendorOf(list[i].gpuType) == VendorOf(list[j].gpuType) == VendorOf(requested)
    ensures FamilyOf(list[j].gpuType) == FamilyOf(requested) ==> FamilyOf(list[i].gpuType) == FamilyOf(requested)
  {
    SimilarAreSimilar(nodes, requested);
    assert SameVendor(list[i], requested) && SameVendor(list[j], requested);
    assert SameFamily(list[j], requested) ==> SameFamily(list[i], requested);
  }

  predicate ShowsCousin(list: seq<Node>, requested: string) {
    exists i :: 0 <= i < |list| && !SameFamily(list[i], requested)
  }

  lemma CousinNeedsRoom(nodes: seq<Node>, requested: string)
    ensures ShowsCousin(Similar(nodes, requested), requested) ==> |Kin(nodes, requested)| < 3
  {
    var kin, list := Kin(nodes, requested), Similar(nodes, requested);
    FirstOfTypesSound(nodes, n => SameFamily(n, requested));
    forall i | 0 <= i < |list| && i < |kin|
      ensures SameFamily(list[i], requested)
    {
      assert list[i] == kin[i] && kin[i] in kin;
    }
  }

  // Another family is recommended only beside every type of the requested one, and fewer than three
  // nodes only when every type of the vendor is listed.
  lemma SimilarAreComplete(nodes: seq<Node>, requested: string, n: Node)
    requires n in nodes && SameVendor(n, requested)
    requires |Similar(nodes, requested)| < 3
          || (SameFamily(n, requested) && ShowsCousin(Similar(nodes, requested), requested))
    ensures HasType(Similar(nodes, requested), n.gpuType)
  {
    var kin, cousins := Kin(nodes, requested), Cousins(nodes, requested);
    CousinNeedsRoom(nodes, requested);
    FirstOfTypesSound(nodes, n => SameFamily(n, requested));
    FirstOfTypesSound(nodes, n => CousinOf(n, requested));
    var shown := if |kin + cousins| > 3 then cousins[..3 - |kin|] else cousins;
    assert Similar(nodes, requested) == kin + shown;
    TypesOfBoth(kin, shown, n.gpuType);
  }

  // A search by model alone has an empty type, so its recommendations have no known vendor.
  lemma ModelOnlySearch(nodes: seq<Node>)
    ensures forall i :: 0 <= i < |Similar(nodes, "")| ==> VendorOf(Similar(nodes, "")[i].gpuType) == UnknownVendor
  {
    SimilarAreSimilar(nodes, "");
    assert VendorOf("") == UnknownVendor;
  }

  // ---- FindProviders ----

  method FindProviders(nodes: seq<Node>, req: MatchRequest, sorter: Sorter) returns (result: MatchResult)
    ensures result.totalCount == |Candidates(nodes, req)|
    ensures result.nodes == Paginate(sorter(Candidates(nodes, req), KeyOf(req.sortBy)), req.limit, req.offset)
    ensures result.recommendations == if Candidates(nodes, req) == [] then Similar(nodes, req.gpuType) else []
    ensures result.totalCount > 0 ==> result.recommendations == []
  {
    var matched := [];
    var p := n => Offered(n, req);
    for i := 0 to |nodes|
      invariant matched == Keep(nodes[..i], p)
    {
      assert nodes[..i + 1][..i] == nodes[..i];
      var node := nodes[i];
      if node.totalGpus <= 0 { continue; }
      if node.availableGpus <= 0 { continue; }
      if req.gpuModel != "" {
        if node.gpuModel != req.gpuModel { continue; }
      } else if req.gpuType != "" {
        if node.gpuType != req.gpuType { continue; }
      }
      matched := matched + [node];
    }
    assert nodes[..|nodes|] == nodes;
    matched := ApplyFilters(matched, req);
    KeepTwice(nodes, p, n => Suffices(n, req), n => Wanted(n, req));
    SortKeepsLength(sorter, matched, KeyOf(req.sortBy));
    matched := sorter(matched, KeyOf(req.sortBy));
    result := MatchResult(Paginate(matched, req.limit, req.offset), |matched|, []);
    if |matched| == 0 {
      var similar := GetSimilarGpus(nodes, req.gpuType);
      result := result.(recommendations := similar);
    }
  }

  lemma SortKeepsLength(sorter: Sorter, list: seq<Node>, key: SortKey)
    ensures |sorter(list, key)| == |list|
  {
    assert |multiset(sorter(list, key))| == |multiset(list)|;
  }
}
