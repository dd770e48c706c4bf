/** Cargo manifests: canonical form, diff and patch (internal/clearance/model.go and
    internal/clearance/manifest.go). */
module Manifests {
  import opened Core

  datatype CargoItem = CargoItem(
    containerNo: string,
    hsCode: string,
    description: string,
    grossKg: int,
    packages: int,
    hazardous: bool)
  {
    predicate Valid() {
      containerNo != "" && hsCode != "" && description != "" && grossKg > 0 && packages > 0
    }
  }

  datatype Manifest = Manifest(voyageID: string, items: seq<CargoItem>, hash: string)

  datatype ManifestChange = ManifestChange(containerNo: string, remove: bool, replacement: Option<CargoItem>)

  /** SHA-256 over the encoded items, kept abstract. */
  type ItemsDigest = seq<CargoItem> -> string

  type Catalogue = map<string, CargoItem>

  /** The items by container number; a later item replaces an earlier one. */
  function Index(items: seq<CargoItem>): Catalogue {
    if items == [] then map[]
    else
      var last := items[|items| - 1];
      Index(items[..|items| - 1])[last.containerNo := last]
  }

  ghost predicate WellKeyed(m: Catalogue) {
    forall k :: k in m ==> m[k].containerNo == k
  }

  /** The items in ascending order of container number. */
  ghost function Listing(m: Catalogue): (r: seq<CargoItem>)
    ensures |r| == |SortedStrings(m.Keys)|
    ensures forall i :: 0 <= i < |r| ==> SortedStrings(m.Keys)[i] in m && r[i] == m[SortedStrings(m.Keys)[i]]
  {
    var keys := SortedStrings(m.Keys);
    assert forall i :: 0 <= i < |keys| ==> keys[i] in keys;
    seq(|keys|, i requires 0 <= i < |keys| => m[keys[i]])
  }

  // ---- Building --------------------------------------------------------------

  /** The first complaint of BuildManifest about the items, if any. */
  function Complaint(items: seq<CargoItem>): Option<Error> {
    if items == [] then None
    else
      var front, last := items[..|items| - 1], items[|items| - 1];
      if Complaint(front).Some? then Complaint(front)
      else if !last.Valid() then Some(Invalid)
      else if last.containerNo in Index(front) then Some(Conflict)
      else None
  }

  ghost function BuildManifest(h: ItemsDigest, voyageID: string, items: seq<CargoItem>): Result<Manifest> {
    if voyageID == "" || items == [] then Err(Invalid)
    else if Complaint(items).Some? then Err(Complaint(items).value)
    else
      var listing := Listing(Index(items));
      Ok(Manifest(voyageID, listing, h(listing)))
  }

  predicate ContainerNoLater(a: CargoItem, b: CargoItem) { StringLeq(a.containerNo, b.containerNo) }

  ghost predicate DistinctContainers(items: seq<CargoItem>) {
    forall i, j :: 0 <= i < j < |items| ==> items[i].containerNo != items[j].containerNo
  }

  method BuildManifestOf(h: ItemsDigest, voyageID: string, items: seq<CargoItem>) returns (r: Result<Manifest>)
    ensures r == BuildManifest(h, voyageID, items)
  {
    if voyageID == "" || |items| == 0 {
      return Err(Invalid);
    }
    var seen: set<string> := {};
    for i := 0 to |items|
      invariant seen == Index(items[..i]).Keys
      invariant Complaint(items[..i]).None?
    {
      var item := items[i];
      assert items[..i + 1][..i] == items[..i];
      if !item.Valid() {
        ComplaintStands(items, i + 1);
        return Err(Invalid);
      }
      if item.containerNo in seen {
        ComplaintStands(items, i + 1);
        return Err(Conflict);
      }
      seen := seen + {item.containerNo};
    }
    assert items[..|items|] == items;
    ContainerOrderIsPreorder();
    var ordered := Sort(ContainerNoLater, items);
    NoComplaintMeansDistinct(items);
    SortedIsListing(items, ordered);
    return Ok(Manifest(voyageID, ordered, h(ordered)));
  }

  lemma ContainerOrderIsPreorder()
    ensures TotalPreorder(ContainerNoLater)
  {
    StringLessIsStrictOrder();
  }

  lemma {:induction false} ComplaintStands(items: seq<CargoItem>, n: nat)
    requires n <= |items| && Complaint(items[..n]).Some?
    ensures Complaint(items) == Complaint(items[..n])
  {
    if n == |items| {
      assert items[..n] == items;
    } else {
      assert items[..|items| - 1][..n] == items[..n];
      ComplaintStands(items[..|items| - 1], n);
    }
  }

  lemma {:induction false} NoComplaintMeansDistinct(items: seq<CargoItem>)
    ensures Complaint(items).None? <==> DistinctContainers(items) && forall x :: x in items ==> x.Valid()
  {
    if items != [] {
      var front, last := items[..|items| - 1], items[|items| - 1];
      assert items == front + [last];
      NoComplaintMeansDistinct(front);
      DistinctAppend(front, last);
      assert forall x :: x in items <==> x in front || x == last;
    }
  }

  /** The item is in order and its container is not that of an item before it. */
  ghost predicate Fine(items: seq<CargoItem>, i: int)
    requires 0 <= i < |items|
  {
    && items[i].containerNo != "" && items[i].hsCode != "" && items[i].description != "" && items[i].grossKg > 0
    && items[i].packages > 0 && forall j :: 0 <= j < i ==> items[j].containerNo != items[i].containerNo
  }

  /** The complaint is about the first item that is not fine: a blank field or a quantity
      that is not positive is invalid, a container that comes again a conflict. */
  ghost predicate FirstFault(items: seq<CargoItem>, i: int, e: Error) {
    && 0 <= i < |items| && !Fine(items, i) && (forall j :: 0 <= j < i ==> Fine(items, j))
    && e == if items[i].containerNo == "" || items[i].hsCode == "" || items[i].description == "" || items[i].grossKg <= 0
               || items[i].packages <= 0 then Invalid else Conflict
  }

  lemma {:induction false} ComplaintTells(items: seq<CargoItem>)
    ensures Complaint(items).None? <==> forall i :: 0 <= i < |items| ==> Fine(items, i)
    ensures forall e :: Complaint(items) == Some(e) <==> exists i :: FirstFault(items, i, e)
  {
    if items != [] {
      var front, last := items[..|items| - 1], items[|items| - 1];
      ComplaintTells(front);
      IndexKeys(front);
      assert items == front + [last];
      assert forall i :: 0 <= i < |front| ==> items[i] == front[i];
      assert forall i :: 0 <= i < |front| ==> (Fine(items, i) <==> Fine(front, i));
      assert forall i, e :: 0 <= i < |front| ==> (FirstFault(items, i, e) <==> FirstFault(front, i, e));
      if Complaint(front).None? {
        LastFault(front, last);
        assert forall i, e :: FirstFault(items, i, e) ==> i == |front|;
      } else {
        var k :| FirstFault(front, k, Complaint(front).value);
        assert FirstFault(items, k, Complaint(front).value);
        assert forall i, e :: FirstFault(items, i, e) ==> i == k;
      }
    }
  }

  lemma LastFault(front: seq<CargoItem>, last: CargoItem)
    requires Complaint(front).None? && forall i :: 0 <= i < |front| ==> Fine(front + [last], i)
    ensures Complaint(front + [last]).None? <==> Fine(front + [last], |front|)
    ensures forall e :: Complaint(front + [last]) == Some(e) <==> FirstFault(front + [last], |front|, e)
  {
    var items := front + [last];
    assert items[..|items| - 1] == front && items[|front|] == last;
    IndexKeys(front);
    assert last.containerNo in Index(front) <==> exists j :: 0 <= j < |front| && items[j].containerNo == last.containerNo by {
      assert forall j :: 0 <= j < |front| ==> items[j] == front[j];
    }
  }

  /** When a manifest can be built, and what it then holds: the items given, each once, in
      ascending order of container, under their hash. */
  lemma BuildTells(h: ItemsDigest, voyageID: string, items: seq<CargoItem>)
    ensures
      BuildManifest(h, voyageID, items).Ok? <==>
        && voyageID != "" && items != []
        && (forall x :: x in items ==> x.containerNo != "" && x.hsCode != "" && x.description != "" && x.grossKg > 0 && x.packages > 0)
        && (forall i, j :: 0 <= i < j < |items| ==> items[i].containerNo != items[j].containerNo)
    ensures BuildManifest(h, voyageID, items).Ok? ==>
              var m := BuildManifest(h, voyageID, items).value;
              && m.voyageID == voyageID && m.hash == h(m.items)
              && (forall x :: x in m.items <==> x in items)
              && (forall i, j :: 0 <= i < j < |m.items| ==> StringLess(m.items[i].containerNo, m.items[j].containerNo))
  {
    NoComplaintMeansDistinct(items);
    if BuildManifest(h, voyageID, items).Ok? {
      var m := Index(items);
      IndexKeys(items);
      ListingIsDistinct(m);
      SameItems(m, items);
    }
  }

  lemma DistinctAppend(front: seq<CargoItem>, last: CargoItem)
    ensures DistinctContainers(front + [last]) <==> DistinctContainers(front) && last.containerNo !in Index(front)
  {
    IndexKeys(front);
    var items := front + [last];
    if DistinctContainers(items) {
      assert forall i :: 0 <= i < |front| ==> front[i] == items[i] && items[i].containerNo != items[|front|].containerNo;
    }
  }

  lemma {:induction false} IndexKeys(items: seq<CargoItem>)
    ensures WellKeyed(Index(items))
    ensures forall k :: k in Index(items) <==> exists i :: 0 <= i < |items| && items[i].containerNo == k
    ensures forall k :: k in Index(items) ==> Index(items)[k] in items
  {
    if items != [] {
      var front, last := items[..|items| - 1], items[|items| - 1];
      assert items == front + [last];
      IndexKeys(front);
      forall k
        ensures k in Index(items) <==> exists i :: 0 <= i < |items| && items[i].containerNo == k
      {
        if k in Index(front) {
          var i :| 0 <= i < |front| && front[i].containerNo == k;
          assert items[i].containerNo == k;
        }
      }
    }
  }

  /** With distinct containers, indexing loses nothing. */
  lemma DistinctIndex(items: seq<CargoItem>)
    requires DistinctContainers(items)
    ensures forall x :: x in items ==> x.containerNo in Index(items) && Index(items)[x.containerNo] == x
  {
    IndexKeys(items);
  }

  function Containers(items: seq<CargoItem>): (keys: seq<string>)
    ensures |keys| == |items| && forall i :: 0 <= i < |items| ==> keys[i] == items[i].containerNo
  {
    seq(|items|, i requires 0 <= i < |items| => items[i].containerNo)
  }

  lemma SortedContainersAscend(items: seq<CargoItem>, ordered: seq<CargoItem>)
    requires DistinctContainers(items)
    requires multiset(ordered) == multiset(items) && SortedBy(ContainerNoLater, ordered)
    ensures Ascending(Containers(ordered))
  {
    SameElements(ordered, items);
    DistinctIndex(items);
    DistinctStaysDistinct(items, ordered);
    assert forall i :: 0 <= i < |ordered| ==> ordered[i] in items;
  }

  lemma SortedContainersAreKeys(items: seq<CargoItem>, ordered: seq<CargoItem>)
    requires DistinctContainers(items)
    requires multiset(ordered) == multiset(items)
    ensures forall k :: k in Containers(ordered) <==> k in Index(items)
  {
    SameElements(ordered, items);
    IndexKeys(items);
    DistinctIndex(items);
    assert forall i :: 0 <= i < |ordered| ==> ordered[i] in items;
    forall k | k in Index(items)
      ensures k in Containers(ordered)
    {
      var i :| 0 <= i < |ordered| && ordered[i] == Index(items)[k];
      assert Containers(ordered)[i] == k;
    }
  }

  lemma SortedIsListing(items: seq<CargoItem>, ordered: seq<CargoItem>)
    requires DistinctContainers(items)
    requires multiset(ordered) == multiset(items) && SortedBy(ContainerNoLater, ordered)
    ensures ordered == Listing(Index(items))
  {
    SortedContainersAscend(items, ordered);
    SortedContainersAreKeys(items, ordered);
    AscendingUnique(Containers(ordered), SortedStrings(Index(items).Keys));
    SameElements(ordered, items);
    DistinctIndex(items);
    assert forall i :: 0 <= i < |ordered| ==> ordered[i] in items;
  }

  lemma ListingIsDistinct(m: Catalogue)
    requires WellKeyed(m)
    ensures DistinctContainers(Listing(m))
    ensures forall x :: x in Listing(m) <==> x.containerNo in m && m[x.containerNo] == x
  {
    StringLessIsStrictOrder();
    var keys := SortedStrings(m.Keys);
    assert forall i :: 0 <= i < |keys| ==> keys[i] in keys;
    forall k | k in m
      ensures m[k] in Listing(m)
    {
      assert k in keys;
      var i :| 0 <= i < |keys| && keys[i] == k;
      assert Listing(m)[i] == m[k];
    }
  }

  /** A catalogue and its listing determine each other. */
  lemma IndexOfListing(m: Catalogue)
    requires WellKeyed(m)
    ensures Index(Listing(m)) == m
  {
    var items := Listing(m);
    ListingIsDistinct(m);
    IndexKeys(items);
    DistinctIndex(items);
    forall k
      ensures k in Index(items) <==> k in m
    {
      if k in m {
        assert m[k] in items;
      }
    }
  }

  // ---- Diff ------------------------------------------------------------------

  /** What turns the entry for one container before into the entry after. */
  function Delta(left: Catalogue, right: Catalogue, k: string): seq<ManifestChange> {
    if k in left && k !in right then [ManifestChange(k, true, None)]
    else if k !in left && k in right then [ManifestChange(k, false, Some(right[k]))]
    else if k in left && k in right && left[k] != right[k] then [ManifestChange(k, false, Some(right[k]))]
    else []
  }

  function Changes(left: Catalogue, right: Catalogue, keys: seq<string>): seq<ManifestChange> {
    if keys == [] then [] else Changes(left, right, keys[..|keys| - 1]) + Delta(left, right, keys[|keys| - 1])
  }

  ghost function CompareManifests(before: Manifest, after: Manifest): Result<seq<ManifestChange>> {
    if before.voyageID == "" || before.voyageID != after.voyageID then Err(Invalid)
    else
      var left, right := Index(before.items), Index(after.items);
      Ok(Changes(left, right, SortedStrings(left.Keys + right.Keys)))
  }

  method IndexItems(items: seq<CargoItem>) returns (m: Catalogue)
    ensures m == Index(items)
  {
    m := map[];
    for i := 0 to |items|
      invariant m == Index(items[..i])
    {
      assert items[..i + 1][..i] == items[..i];
      m := m[items[i].containerNo := items[i]];
    }
    assert items[..|items|] == items;
  }

  /** One round of the comparison: nothing, a removal or a replacement. */
  method CompareEntries(left: Catalogue, right: Catalogue, container: string) returns (change: seq<ManifestChange>)
    ensures change == Delta(left, right, container)
  {
    var inBefore, inAfter := container in left, container in right;
    if inBefore && !inAfter {
      return [ManifestChange(container, true, None)];
    } else if !inBefore && inAfter {
      return [ManifestChange(container, false, Some(right[container]))];
    } else if inBefore && inAfter && left[container] != right[container] {
      return [ManifestChange(container, false, Some(right[container]))];
    }
    return [];
  }

  method CompareManifestsOf(before: Manifest, after: Manifest) returns (r: Result<seq<ManifestChange>>)
    ensures r == CompareManifests(before, after)
  {
    if before.voyageID == "" || before.voyageID != after.voyageID {
      return Err(Invalid);
    }
    var left := IndexItems(before.items);
    var right := IndexItems(after.items);
    var ordered := SortKeys(left.Keys + right.Keys);
    var changes := CollectChanges(left, right, ordered);
    return Ok(changes);
  }

  method CollectChanges(left: Catalogue, right: Catalogue, ordered: seq<string>) returns (changes: seq<ManifestChange>)
    ensures changes == Changes(left, right, ordered)
  {
    changes := [];
    for i := 0 to |ordered|
      invariant changes == Changes(left, right, ordered[..i])
    {
      ChangesStep(left, right, ordered[..i], ordered[i]);
      assert ordered[..i + 1] == ordered[..i] + [ordered[i]];
      var change := CompareEntries(left, right, ordered[i]);
      changes := changes + change;
    }
    assert ordered[..|ordered|] == ordered;
  }

  // ---- Patch -----------------------------------------------------------------

  /** Trimming and upper-casing a container number, kept abstract. */
  type Normalizer = string -> string

  /** One change applied to the items that are left, given the containers already
      changed. */
  function ApplyChange(norm: Normalizer, items: Catalogue, seen: set<string>, change: ManifestChange): Result<Catalogue> {
    var container := norm(change.containerNo);
    if container == "" then Err(Invalid)
    else if container in seen then Err(Conflict)
    else if change.remove then
      if container !in items || change.replacement.Some? then Err(Conflict) else Ok(items - {container})
    else if change.replacement.Some? then
      Ok(items[container := change.replacement.value.(containerNo := container)])
    else Err(Invalid)
  }

  function Touched(norm: Normalizer, changes: seq<ManifestChange>): set<string> {
    if changes == [] then {}
    else Touched(norm, changes[..|changes| - 1]) + {norm(changes[|changes| - 1].containerNo)}
  }

  function ApplyChanges(norm: Normalizer, items: Catalogue, changes: seq<ManifestChange>): Result<Catalogue> {
    if changes == [] then Ok(items)
    else
      var front := changes[..|changes| - 1];
      var patched :- ApplyChanges(norm, items, front);
      ApplyChange(norm, patched, Touched(norm, front), changes[|changes| - 1])
  }

  ghost function AmendManifest(norm: Normalizer, h: ItemsDigest, current: Manifest, changes: seq<ManifestChange>): Result<Manifest> {
    if changes == [] then Err(Invalid)
    else
      var items :- ApplyChanges(norm, Index(current.items), changes);
      if items == map[] then Err(BadState) else BuildManifest(h, current.voyageID, Listing(items))
  }

  method AmendManifestOf(norm: Normalizer, h: ItemsDigest, current: Manifest, changes: seq<ManifestChange>)
    returns (r: Result<Manifest>)
    ensures r == AmendManifest(norm, h, current, changes)
  {
    if |changes| == 0 {
      return Err(Invalid);
    }
    var items := IndexItems(current.items);
    var seen: set<string> := {};
    for i := 0 to |changes|
      invariant ApplyChanges(norm, Index(current.items), changes[..i]) == Ok(items)
      invariant seen == Touched(norm, changes[..i])
    {
      var change := changes[i];
      assert changes[..i + 1][..i] == changes[..i];
      var container := norm(change.containerNo);
      if container == "" {
        FailureStands(norm, Index(current.items), changes, i + 1);
        return Err(Invalid);
      }
      if container in seen {
        FailureStands(norm, Index(current.items), changes, i + 1);
        return Err(Conflict);
      }
      seen := seen + {container};
      if change.remove {
        if container !in items || change.replacement.Some? {
          FailureStands(norm, Index(current.items), changes, i + 1);
          return Err(Conflict);
        }
        items := items - {container};
      } else if change.replacement.Some? {
        items := items[container := change.replacement.value.(containerNo := container)];
      } else {
        FailureStands(norm, Index(current.items), changes, i + 1);
        return Err(Invalid);
      }
    }
    assert changes[..|changes|] == changes;
    if |items| == 0 {
      assert items == map[];
      return Err(BadState);
    }
    var updated := Values(items);
    IndexKeys(current.items);
    PatchKeepsKeys(norm, Index(current.items), changes);
    r := BuildManifestOf(h, current.voyageID, updated);
    BuildIgnoresOrder(h, current.voyageID, items, updated);
  }

  /** The items of a map in whatever order the iteration yields. */
  method Values(m: Catalogue) returns (items: seq<CargoItem>)
    ensures |items| == |m|
    ensures exists keys: seq<string> :: IsEnumeration(m, keys, items)
  {
    items := [];
    ghost var keys: seq<string> := [];
    var rest := m.Keys;
    while rest != {}
      invariant rest <= m.Keys && |items| + |rest| == |m|
      invariant |keys| == |items| && NoRepeats(keys)
      invariant forall k :: k in keys <==> k in m && k !in rest
      invariant forall i :: 0 <= i < |keys| ==> keys[i] in m && items[i] == m[keys[i]]
      decreases rest
    {
      var k :| k in rest;
      rest := rest - {k};
      items := items + [m[k]];
      keys := keys + [k];
    }
    assert IsEnumeration(m, keys, items);
  }

  ghost predicate IsEnumeration(m: Catalogue, keys: seq<string>, items: seq<CargoItem>) {
    && |keys| == |items| && NoRepeats(keys)
    && (forall k :: k in keys <==> k in m)
    && (forall i :: 0 <= i < |keys| ==> keys[i] in m && items[i] == m[keys[i]])
  }

  lemma {:induction false} FailureStands(norm: Normalizer, items: Catalogue, changes: seq<ManifestChange>, n: nat)
    requires n <= |changes| && ApplyChanges(norm, items, changes[..n]).Err?
    ensures ApplyChanges(norm, items, changes) == ApplyChanges(norm, items, changes[..n])
  {
    if n == |changes| {
      assert changes[..n] == changes;
    } else {
      assert changes[..|changes| - 1][..n] == changes[..n];
      FailureStands(norm, items, changes[..|changes| - 1], n);
    }
  }

  lemma {:induction false} PatchKeepsKeys(norm: Normalizer, items: Catalogue, changes: seq<ManifestChange>)
    requires WellKeyed(items) && ApplyChanges(norm, items, changes).Ok?
    ensures WellKeyed(ApplyChanges(norm, items, changes).value)
  {
    if changes != [] {
      PatchKeepsKeys(norm, items, changes[..|changes| - 1]);
    }
  }

  lemma BuildIgnoresOrder(h: ItemsDigest, voyageID: string, m: Catalogue, items: seq<CargoItem>)
    requires WellKeyed(m)
    requires exists keys: seq<string> :: IsEnumeration(m, keys, items)
    ensures BuildManifest(h, voyageID, items) == BuildManifest(h, voyageID, Listing(m))
  {
    var keys :| IsEnumeration(m, keys, items);
    var listing := Listing(m);
    ListingIsDistinct(m);
    IndexOfListing(m);
    EnumerationIndex(m, keys, items);
    SameItems(m, items);
    SameItems(m, listing);
    SameVerdict(items, listing);
  }

  lemma SameItems(m: Catalogue, items: seq<CargoItem>)
    requires DistinctContainers(items) && Index(items) == m
    ensures forall x :: x in items <==> x.containerNo in m && m[x.containerNo] == x
  {
    IndexKeys(items);
    DistinctIndex(items);
  }

  lemma SameVerdict(a: seq<CargoItem>, b: seq<CargoItem>)
    requires DistinctContainers(a) && DistinctContainers(b)
    requires forall x :: x in a <==> x in b
    ensures Complaint(a) == Complaint(b) && (a == [] <==> b == [])
  {
    OnlyInvalid(a);
    OnlyInvalid(b);
    NoComplaintMeansDistinct(a);
    NoComplaintMeansDistinct(b);
    assert forall i :: 0 <= i < |a| ==> a[i] in b;
    assert forall i :: 0 <= i < |b| ==> b[i] in a;
  }

  lemma EnumerationIndex(m: Catalogue, keys: seq<string>, items: seq<CargoItem>)
    requires WellKeyed(m) && IsEnumeration(m, keys, items)
    ensures DistinctContainers(items) && Index(items) == m
  {
    assert DistinctContainers(items);
    IndexKeys(items);
    DistinctIndex(items);
    forall k
      ensures k in Index(items) <==> k in m
    {
      if k in m {
        var i :| 0 <= i < |keys| && keys[i] == k;
        assert items[i].containerNo == k;
      }
    }
    forall k | k in m
      ensures Index(items)[k] == m[k]
    {
      var i :| 0 <= i < |keys| && keys[i] == k;
      assert items[i] in items;
    }
  }

  lemma {:induction false} OnlyInvalid(items: seq<CargoItem>)
    requires DistinctContainers(items)
    ensures Complaint(items).Some? ==> Complaint(items).value == Invalid
  {
    if items != [] {
      var front := items[..|items| - 1];
      assert items == front + [items[|items| - 1]];
      assert DistinctContainers(front);
      OnlyInvalid(front);
      IndexKeys(front);
    }
  }

  // ---- Patch undoes diff -----------------------------------------------------

  /** The manifest came out of BuildManifest. */
  ghost predicate Built(h: ItemsDigest, m: Manifest) {
    exists items: seq<CargoItem> :: BuildManifest(h, m.voyageID, items) == Ok(m)
  }

  lemma BuiltIsCanonical(h: ItemsDigest, m: Manifest)
    requires Built(h, m)
    ensures m.voyageID != "" && m.items != [] && m.hash == h(m.items)
    ensures m.items == Listing(Index(m.items))
    ensures forall k :: k in Index(m.items) ==> k != ""
    ensures BuildManifest(h, m.voyageID, m.items) == Ok(m)
  {
    var items: seq<CargoItem> :| BuildManifest(h, m.voyageID, items) == Ok(m);
    var index := Index(items);
    IndexKeys(items);
    NoComplaintMeansDistinct(items);
    DistinctIndex(items);
    ListingIsDistinct(index);
    IndexOfListing(index);
    NoComplaintMeansDistinct(m.items);
    assert items[0] in items;
    assert m.items != [] by {
      assert index[items[0].containerNo] in m.items;
    }
  }

  lemma BuiltItemsFollowIndex(h: ItemsDigest, a: Manifest, b: Manifest)
    requires Built(h, a) && Built(h, b)
    ensures a.items == b.items <==> Index(a.items) == Index(b.items)
  {
    BuiltIsCanonical(h, a);
    BuiltIsCanonical(h, b);
  }

  predicate Differ(left: Catalogue, right: Catalogue, k: string) {
    Delta(left, right, k) != []
  }

  lemma {:induction false} ChangesEmpty(left: Catalogue, right: Catalogue, keys: seq<string>)
    ensures Changes(left, right, keys) == [] <==> forall k :: k in keys ==> !Differ(left, right, k)
  {
    if keys != [] {
      var front, last := keys[..|keys| - 1], keys[|keys| - 1];
      assert keys == front + [last];
      ChangesEmpty(left, right, front);
      assert forall k :: k in keys <==> k in front || k == last;
      assert last in keys && (Differ(left, right, last) <==> |Delta(left, right, last)| > 0);
      assert |Changes(left, right, keys)| == |Changes(left, right, front)| + |Delta(left, right, last)|;
    }
  }

  /** The diff is empty exactly when the items are the same. */
  lemma DiffEmptyIffEqual(h: ItemsDigest, before: Manifest, after: Manifest)
    requires Built(h, before) && Built(h, after) && before.voyageID == after.voyageID
    ensures CompareManifests(before, after).Ok?
    ensures CompareManifests(before, after).value == [] <==> before.items == after.items
  {
    BuiltIsCanonical(h, before);
    BuiltItemsFollowIndex(h, before, after);
    NoChangesMeansEqual(Index(before.items), Index(after.items));
  }

  lemma NoChangesMeansEqual(left: Catalogue, right: Catalogue)
    ensures Changes(left, right, SortedStrings(left.Keys + right.Keys)) == [] <==> left == right
  {
    var keys := SortedStrings(left.Keys + right.Keys);
    ChangesEmpty(left, right, keys);
    if Changes(left, right, keys) == [] {
      forall k | k in left.Keys + right.Keys
        ensures k in left && k in right && left[k] == right[k]
      {
        assert k in keys && !Differ(left, right, k);
      }
      assert left.Keys == right.Keys;
    }
  }

  /** Entries of the containers done so far come from the new manifest, the others
      still from the old one. */
  ghost predicate PartlyPatched(left: Catalogue, right: Catalogue, done: seq<string>, m: Catalogue) {
    forall k :: if k in done then SameEntry(m, right, k) else SameEntry(m, left, k)
  }

  predicate SameEntry(a: Catalogue, b: Catalogue, k: string) {
    (k in a <==> k in b) && (k in a && k in b ==> a[k] == b[k])
  }

  lemma {:induction false} PatchSoFar(norm: Normalizer, left: Catalogue, right: Catalogue, keys: seq<string>)
    requires Ascending(keys) && WellKeyed(right)
    requires forall k :: k in keys ==> k != ""
    requires forall k :: k in keys && Differ(left, right, k) ==> norm(k) == k
    ensures
      var changes := Changes(left, right, keys);
      && ApplyChanges(norm, left, changes).Ok?
      && PartlyPatched(left, right, keys, ApplyChanges(norm, left, changes).value)
      && forall k :: k in Touched(norm, changes) ==> k in keys
  {
    if keys != [] {
      var front, k := keys[..|keys| - 1], keys[|keys| - 1];
      assert keys == front + [k];
      assert k in keys && forall x :: x in front ==> x in keys;
      PatchSoFar(norm, left, right, front);
      assert k !in front by {
        StringLessIsStrictOrder();
      }
      PatchStep(norm, left, right, front, k);
    }
  }

  lemma PatchStep(norm: Normalizer, left: Catalogue, right: Catalogue, front: seq<string>, k: string)
    requires WellKeyed(right) && k !in front && k != ""
    requires Differ(left, right, k) ==> norm(k) == k
    requires ApplyChanges(norm, left, Changes(left, right, front)).Ok?
    requires PartlyPatched(left, right, front, ApplyChanges(norm, left, Changes(left, right, front)).value)
    requires forall x :: x in Touched(norm, Changes(left, right, front)) ==> x in front
    ensures
      var changes := Changes(left, right, front + [k]);
      && ApplyChanges(norm, left, changes).Ok?
      && PartlyPatched(left, right, front + [k], ApplyChanges(norm, left, changes).value)
      && forall x :: x in Touched(norm, changes) ==> x in front + [k]
  {
    ChangesStep(left, right, front, k);
    if Differ(left, right, k) {
      PatchDifference(norm, left, right, front, k);
    } else {
      assert Changes(left, right, front + [k]) == Changes(left, right, front);
      StillPatched(left, right, front, k, ApplyChanges(norm, left, Changes(left, right, front)).value);
    }
  }

  lemma ChangesStep(left: Catalogue, right: Catalogue, keys: seq<string>, k: string)
    ensures Changes(left, right, keys + [k]) == Changes(left, right, keys) + Delta(left, right, k)
  {
    assert (keys + [k])[..|keys|] == keys;
  }

  lemma StillPatched(left: Catalogue, right: Catalogue, front: seq<string>, k: string, m: Catalogue)
    requires PartlyPatched(left, right, front, m) && k !in front && !Differ(left, right, k)
    ensures PartlyPatched(left, right, front + [k], m)
  {
    assert SameEntry(m, left, k) && SameEntry(left, right, k);
    forall x
      ensures if x in front + [k] then SameEntry(m, right, x) else SameEntry(m, left, x)
    {
      assert if x in front then SameEntry(m, right, x) else SameEntry(m, left, x);
    }
  }

  lemma PatchDifference(norm: Normalizer, left: Catalogue, right: Catalogue, front: seq<string>, k: string)
    requires WellKeyed(right) && k !in front && k != "" && Differ(left, right, k) && norm(k) == k
    requires ApplyChanges(norm, left, Changes(left, right, front)).Ok?
    requires PartlyPatched(left, right, front, ApplyChanges(norm, left, Changes(left, right, front)).value)
    requires forall x :: x in Touched(norm, Changes(left, right, front)) ==> x in front
    ensures
      var changes := Changes(left, right, front) + Delta(left, right, k);
      && ApplyChanges(norm, left, changes).Ok?
      && PartlyPatched(left, right, front + [k], ApplyChanges(norm, left, changes).value)
      && forall x :: x in Touched(norm, changes) ==> x in front + [k]
  {
    var sofar, change := Changes(left, right, front), Delta(left, right, k)[0];
    var m := ApplyChanges(norm, left, sofar).value;
    assert SameEntry(m, left, k);
    assert Delta(left, right, k) == [change];
    assert (sofar + [change])[..|sofar|] == sofar;
    DeltaApplies(norm, left, right, m, Touched(norm, sofar), k);
    NextPatched(left, right, front, k, m, ApplyChange(norm, m, Touched(norm, sofar), change).value);
  }

  lemma NextPatched(left: Catalogue, right: Catalogue, front: seq<string>, k: string, m: Catalogue, m': Catalogue)
    requires PartlyPatched(left, right, front, m)
    requires SameEntry(m', right, k) && forall x :: x != k ==> SameEntry(m', m, x)
    ensures PartlyPatched(left, right, front + [k], m')
  {
    forall x
      ensures if x in front + [k] then SameEntry(m', right, x) else SameEntry(m', left, x)
    {
      assert if x in front then SameEntry(m, right, x) else SameEntry(m, left, x);
      assert x != k ==> SameEntry(m', m, x);
    }
  }

  lemma DeltaApplies(norm: Normalizer, left: Catalogue, right: Catalogue, m: Catalogue, seen: set<string>, k: string)
    requires WellKeyed(right) && norm(k) == k && k != "" && k !in seen
    requires SameEntry(m, left, k) && Differ(left, right, k)
    ensures
      var r := ApplyChange(norm, m, seen, Delta(left, right, k)[0]);
      r.Ok? && SameEntry(r.value, right, k) && forall x :: x != k ==> SameEntry(r.value, m, x)
  {
  }

  /** Containers outside the image of the normaliser are out of a patch's reach. */
  lemma {:induction false} Untouched(norm: Normalizer, items: Catalogue, changes: seq<ManifestChange>, k: string)
    requires ApplyChanges(norm, items, changes).Ok?
    requires forall x :: norm(x) != k
    ensures SameEntry(items, ApplyChanges(norm, items, changes).value, k)
  {
    if changes != [] {
      Untouched(norm, items, changes[..|changes| - 1], k);
    }
  }

  /** Every container the diff changes is already in normal form. */
  ghost predicate ChangesNormalized(norm: Normalizer, changes: seq<ManifestChange>) {
    forall c :: c in changes ==> norm(c.containerNo) == c.containerNo
  }

  ghost predicate Idempotent(norm: Normalizer) {
    forall s :: norm(norm(s)) == norm(s)
  }

  lemma {:induction false} ChangedContainers(left: Catalogue, right: Catalogue, keys: seq<string>)
    ensures forall c :: c in Changes(left, right, keys) ==> c.containerNo in keys && Differ(left, right, c.containerNo)
    ensures forall k :: k in keys && Differ(left, right, k) ==> exists c :: c in Changes(left, right, keys) && c.containerNo == k
  {
    if keys != [] {
      var front, k := keys[..|keys| - 1], keys[|keys| - 1];
      assert keys == front + [k];
      ChangedContainers(left, right, front);
      if Differ(left, right, k) {
        assert Delta(left, right, k)[0] in Changes(left, right, keys);
      }
    }
  }

  /** Patch undoes diff when the changed containers are in normal form. */
  lemma PatchUndoesDiff(norm: Normalizer, h: ItemsDigest, before: Manifest, after: Manifest)
    requires Built(h, before) && Built(h, after) && before.voyageID == after.voyageID
    requires before.items != after.items
    requires ChangesNormalized(norm, CompareManifests(before, after).value)
    ensures AmendManifest(norm, h, before, CompareManifests(before, after).value) == Ok(after)
  {
    DiffEmptyIffEqual(h, before, after);
    BuiltIsCanonical(h, before);
    BuiltIsCanonical(h, after);
    var left, right := Index(before.items), Index(after.items);
    var keys := SortedStrings(left.Keys + right.Keys);
    IndexKeys(after.items);
    ChangedContainers(left, right, keys);
    PatchSoFar(norm, left, right, keys);
    var m := ApplyChanges(norm, left, Changes(left, right, keys)).value;
    FullyPatched(left, right, keys, m);
  }

  lemma FullyPatched(left: Catalogue, right: Catalogue, keys: seq<string>, m: Catalogue)
    requires PartlyPatched(left, right, keys, m)
    requires forall k :: k in keys <==> k in left.Keys + right.Keys
    ensures m == right
  {
    forall k
      ensures SameEntry(m, right, k)
    {
      assert if k in keys then SameEntry(m, right, k) else SameEntry(m, left, k);
      assert k !in keys ==> k !in left.Keys && k !in right.Keys;
    }
    assert forall k :: k in m <==> k in right by {
      forall k
        ensures k in m <==> k in right
      {
        assert SameEntry(m, right, k);
      }
    }
    assert forall k :: k in m ==> SameEntry(m, right, k);
  }

  /** And only then: a changed container that is not in normal form spoils the patch. */
  lemma PatchNeedsNormalForm(norm: Normalizer, h: ItemsDigest, before: Manifest, after: Manifest, c: ManifestChange)
    requires Built(h, before) && Built(h, after) && before.voyageID == after.voyageID
    requires Idempotent(norm)
    requires c in CompareManifests(before, after).value && norm(c.containerNo) != c.containerNo
    ensures AmendManifest(norm, h, before, CompareManifests(before, after).value) != Ok(after)
  {
    BuiltIsCanonical(h, before);
    BuiltIsCanonical(h, after);
    var left, right := Index(before.items), Index(after.items);
    var changes := CompareManifests(before, after).value;
    ChangedContainers(left, right, SortedStrings(left.Keys + right.Keys));
    assert forall x :: norm(x) != c.containerNo;
    if AmendManifest(norm, h, before, changes) == Ok(after) {
      AmendResult(norm, h, before, changes, after);
      Untouched(norm, left, changes, c.containerNo);
    }
  }

  lemma AmendResult(norm: Normalizer, h: ItemsDigest, current: Manifest, changes: seq<ManifestChange>, r: Manifest)
    requires AmendManifest(norm, h, current, changes) == Ok(r)
    ensures ApplyChanges(norm, Index(current.items), changes) == Ok(Index(r.items))
  {
    var m := ApplyChanges(norm, Index(current.items), changes).value;
    IndexKeys(current.items);
    PatchKeepsKeys(norm, Index(current.items), changes);
    IndexOfListing(m);
  }

  /** The exact condition under which amending by the diff reproduces the manifest,
      hash included. */
  lemma PatchUndoesDiffExactly(norm: Normalizer, h: ItemsDigest, before: Manifest, after: Manifest)
    requires Built(h, before) && Built(h, after) && before.voyageID == after.voyageID
    requires Idempotent(norm)
    ensures AmendManifest(norm, h, before, CompareManifests(before, after).value) == Ok(after)
       <==> before.items != after.items && ChangesNormalized(norm, CompareManifests(before, after).value)
  {
    DiffEmptyIffEqual(h, before, after);
    var changes := CompareManifests(before, after).value;
    if changes != [] {
      if ChangesNormalized(norm, changes) {
        PatchUndoesDiff(norm, h, before, after);
      } else {
        var c :| c in changes && norm(c.containerNo) != c.containerNo;
        PatchNeedsNormalForm(norm, h, before, after, c);
      }
    }
  }

  lemma SingletonBuilds(h: ItemsDigest, voyageID: string, item: CargoItem)
    requires voyageID != "" && item.Valid()
    ensures BuildManifest(h, voyageID, [item]) == Ok(Manifest(voyageID, [item], h([item])))
    ensures Built(h, Manifest(voyageID, [item], h([item])))
  {
    NoComplaintMeansDistinct([item]);
    SortedIsListing([item], [item]);
  }

  /** One container, renamed from upper to lower case: the manifests differ, the diff is not
      empty, and amending by it does not give the second manifest. */
  lemma LowerCaseSpoilsPatch(h: ItemsDigest)
    ensures
      var norm := (s: string) => if s == "a" then "A" else s;
      var before := [CargoItem("A", "8703", "cars", 1000, 1, false)];
      var after := [CargoItem("a", "8703", "cars", 1000, 1, false)];
      var b, a := Manifest("v", before, h(before)), Manifest("v", after, h(after));
      && Idempotent(norm) && Built(h, b) && Built(h, a) && b.items != a.items
      && CompareManifests(b, a).Ok? && !ChangesNormalized(norm, CompareManifests(b, a).value)
      && AmendManifest(norm, h, b, CompareManifests(b, a).value) != Ok(a)
  {
    var norm := (s: string) => if s == "a" then "A" else s;
    assert Idempotent(norm);
    var upper, lower := CargoItem("A", "8703", "cars", 1000, 1, false), CargoItem("a", "8703", "cars", 1000, 1, false);
    var b, a := Manifest("v", [upper], h([upper])), Manifest("v", [lower], h([lower]));
    SingletonBuilds(h, "v", upper);
    SingletonBuilds(h, "v", lower);
    SingletonIndex(upper);
    SingletonIndex(lower);
    var left, right := Index(b.items), Index(a.items);
    ChangedContainers(left, right, SortedStrings(left.Keys + right.Keys));
    assert Differ(left, right, "a");
    var c :| c in CompareManifests(b, a).value && c.containerNo == "a";
    assert norm(c.containerNo) != c.containerNo;
    PatchNeedsNormalForm(norm, h, b, a, c);
  }

  lemma SingletonIndex(item: CargoItem)
    ensures Index([item]) == map[item.containerNo := item]
  {
    assert [item][..0] == [];
  }
}
