/**
 `determineAvailabilityZones` of `pkg/installer/generateconfig.go`, `Zones` of
 `pkg/util/computeskus/computeskus.go`, and the way the chosen zones reach the VM copy loop in
 `pkg/installer/deployresources.go` and `deployresources_resources.go`.

 The zone lists are Go slices: the selection sorts and compacts the arrays that belong to the
 SKUs, and when both node roles use one VM size both lists are the same array.  `slices.Sort`
 is a library routine, modelled by its effect on the array; `slices.DeleteFunc` is written out
 (as of Go 1.22 it clears the tail it frees).
 */
module ZoneSelection {
  import opened Wrappers
  import opened StringOrder

  const CONTROL_PLANE_MACHINE_COUNT := 3
  const MIN_WORKER_ZONES := 3

  datatype Slice = Nil | Slice(arr: array<string>, len: nat)

  datatype LocationInfo = LocationInfo(zones: Slice)

  class ResourceSku {
    const locationInfo: Option<seq<LocationInfo>>

    constructor (locationInfo: Option<seq<LocationInfo>>)
      ensures this.locationInfo == locationInfo
    {
      this.locationInfo := locationInfo;
    }

    /** The SKU's own slice, not a copy. */
    function Zones(): Slice {
      if locationInfo.None? || locationInfo.value == [] then Nil else locationInfo.value[0].zones
    }
  }

  predicate ValidSlice(s: Slice) {
    s.Nil? || s.len <= s.arr.Length
  }

  function Contents(s: Slice): seq<string>
    requires ValidSlice(s)
    reads if s.Nil? then {} else {s.arr}
  {
    if s.Nil? then [] else s.arr[..s.len]
  }

  function Arrays(s: Slice): set<array<string>> {
    if s.Nil? then {} else {s.arr}
  }

  // ---------------------------------------------------------------- the choice, with no arrays in sight

  datatype ZoneError = TooFewControlPlaneZones(n: nat) | TooFewWorkerZones(n: nat)

  const BASIC_ZONES: seq<string> := ["1", "2", "3"]

  predicate Basic(z: string) {
    z in BASIC_ZONES
  }

  function KeepBasic(zs: seq<string>): (r: seq<string>)
    ensures |r| <= |zs|
  {
    if zs == [] then []
    else if Basic(zs[0]) then [zs[0]] + KeepBasic(zs[1..])
    else KeepBasic(zs[1..])
  }

  function Blanks(n: nat): (r: seq<string>)
    ensures |r| == n && forall i :: 0 <= i < n ==> r[i] == ""
  {
    seq(n, _ => "")
  }

  function Allowed(zs: seq<string>, expanded: bool): seq<string> {
    if expanded then Sort(zs) else KeepBasic(Sort(zs))
  }

  function ChooseControlPlane(allowed: seq<string>): Result<seq<string>, ZoneError> {
    if |allowed| == 0 then Success([""])
    else if |allowed| < CONTROL_PLANE_MACHINE_COUNT then Failure(TooFewControlPlaneZones(|allowed|))
    else Success(allowed[..CONTROL_PLANE_MACHINE_COUNT])
  }

  function ChooseWorkers(allowed: seq<string>): Result<seq<string>, ZoneError> {
    if |allowed| == 0 then Success([""])
    else if |allowed| < MIN_WORKER_ZONES then Failure(TooFewWorkerZones(|allowed|))
    else Success(allowed)
  }

  function Choose(cp: seq<string>, w: seq<string>, expanded: bool): Result<(seq<string>, seq<string>), ZoneError> {
    match ChooseControlPlane(Allowed(cp, expanded))
    case Failure(e) => Failure(e)
    case Success(c) =>
      match ChooseWorkers(Allowed(w, expanded))
      case Failure(e) => Failure(e)
      case Success(z) => Success((c, z))
  }

  /** The basic zones at the front, blanks behind. */
  function Compacted(zs: seq<string>): (r: seq<string>)
    ensures |r| == |zs|
  {
    KeepBasic(zs) + Blanks(|zs| - |KeepBasic(zs)|)
  }

  /** What a call leaves in a SKU's zone list: sorted, and in basic mode compacted over blanks. */
  function LeftBehind(zs: seq<string>, expanded: bool): (r: seq<string>)
    ensures |r| == |zs|
  {
    if expanded then Sort(zs) else Compacted(Sort(zs))
  }

  // ---------------------------------------------------------------- facts about compacting

  lemma {:induction false} KeepBasicMembers(zs: seq<string>)
    ensures forall z :: z in KeepBasic(zs) <==> z in zs && Basic(z)
  {
    if zs != [] {
      KeepBasicMembers(zs[1..]);
      assert zs == [zs[0]] + zs[1..];
    }
  }

  lemma {:induction false} KeepBasicAppend(a: seq<string>, b: seq<string>)
    ensures KeepBasic(a + b) == KeepBasic(a) + KeepBasic(b)
  {
    if a == [] {
      assert a + b == b;
    } else {
      assert (a + b)[0] == a[0] && (a + b)[1..] == a[1..] + b;
      KeepBasicAppend(a[1..], b);
      if Basic(a[0]) {
        assert [a[0]] + (KeepBasic(a[1..]) + KeepBasic(b)) == ([a[0]] + KeepBasic(a[1..])) + KeepBasic(b);
      }
    }
  }

  lemma {:induction false} KeepBasicAll(zs: seq<string>)
    requires forall z :: z in zs ==> Basic(z)
    ensures KeepBasic(zs) == zs
  {
    if zs != [] {
      KeepBasicAll(zs[1..]);
    }
  }

  lemma {:induction false} KeepBasicNone(zs: seq<string>)
    requires forall z :: z in zs ==> !Basic(z)
    ensures KeepBasic(zs) == []
  {
    if zs != [] {
      KeepBasicNone(zs[1..]);
    }
  }

  lemma {:induction false} KeepBasicSorted(zs: seq<string>)
    requires Sorted(zs)
    ensures Sorted(KeepBasic(zs))
  {
    if zs != [] {
      assert Sorted(zs[1..]);
      KeepBasicSorted(zs[1..]);
      KeepBasicMembers(zs[1..]);
      var rest := KeepBasic(zs[1..]);
      if rest != [] {
        assert rest[0] in zs[1..];
        var j :| 0 <= j < |zs[1..]| && zs[1..][j] == rest[0];
        assert AtMost(zs[0], zs[j + 1]);
      }
      PrependSorted(zs[0], rest);
    }
  }

  lemma {:induction false} KeepBasicPermutation(a: seq<string>, b: seq<string>)
    requires multiset(a) == multiset(b)
    ensures multiset(KeepBasic(a)) == multiset(KeepBasic(b))
  {
    forall z
      ensures multiset(KeepBasic(a))[z] == multiset(KeepBasic(b))[z]
    {
      KeepBasicCount(a, z);
      KeepBasicCount(b, z);
    }
  }

  lemma {:induction false} KeepBasicCount(zs: seq<string>, z: string)
    ensures multiset(KeepBasic(zs))[z] == if Basic(z) then multiset(zs)[z] else 0
  {
    if zs != [] {
      KeepBasicCount(zs[1..], z);
      assert zs == [zs[0]] + zs[1..];
    }
  }

  lemma {:induction false} BlanksAreNotBasic(n: nat)
    ensures KeepBasic(Blanks(n)) == []
  {
    KeepBasicNone(Blanks(n));
  }

  /** Compacting, then sorting what is left behind and compacting again, changes nothing. */
  lemma {:induction false} AllowedOfLeftBehind(zs: seq<string>, expanded: bool)
    ensures Allowed(LeftBehind(zs, expanded), expanded) == Allowed(zs, expanded)
  {
    SortSorts(zs);
    if expanded {
      SortOfSorted(Sort(zs));
    } else {
      var kept, left := KeepBasic(Sort(zs)), LeftBehind(zs, false);
      CompactingAgain(Sort(zs));
      KeepBasicSorted(Sort(zs));
      SortSorts(left);
      KeepBasicSorted(Sort(left));
      KeepBasicPermutation(Sort(left), left);
      SortedIsUnique(KeepBasic(Sort(left)), kept);
    }
  }

  /** What is left behind the first time is left behind again. */
  lemma {:induction false} LeftBehindAgain(zs: seq<string>, expanded: bool)
    ensures LeftBehind(LeftBehind(zs, expanded), expanded) == LeftBehind(zs, expanded)
  {
    AllowedOfLeftBehind(zs, expanded);
  }

  /** The front of the list that a basic-mode call kept, read after an expanded-mode call on the
      same array: it reads the same exactly when the first call had nothing to delete. */
  lemma {:induction false} KeptFrontStaysIff(zs: seq<string>, m: nat)
    requires 0 < m <= |KeepBasic(Sort(zs))|
    ensures LeftBehind(LeftBehind(zs, false), true)[..m] == KeepBasic(Sort(zs))[..m] <==> forall z :: z in zs ==> Basic(z)
  {
    var kept, left := KeepBasic(Sort(zs)), LeftBehind(zs, false);
    SortSorts(zs);
    SortMembers(zs);
    KeepBasicMembers(Sort(zs));
    if forall z :: z in zs ==> Basic(z) {
      KeepBasicAll(Sort(zs));
      assert left == Sort(zs) + Blanks(0) == Sort(zs);
      SortOfSorted(Sort(zs));
    } else {
      DeletingShortens(Sort(zs));
      assert left[|kept|] == "" && left[|kept|] in left;
      BlankSortsFirst(left);
      assert kept[..m][0] == kept[0] && kept[0] in kept;
    }
  }

  lemma {:induction false} DeletingShortens(zs: seq<string>)
    requires !forall z :: z in zs ==> Basic(z)
    ensures |KeepBasic(zs)| < |zs|
  {
    if forall z :: z in zs[1..] ==> Basic(z) {
      assert zs == [zs[0]] + zs[1..];
    } else {
      DeletingShortens(zs[1..]);
    }
  }

  lemma {:induction false} BlankSortsFirst(zs: seq<string>)
    requires "" in zs
    ensures Sort(zs)[0] == ""
  {
    SortSorts(zs);
    SortMembers(zs);
    var i :| 0 <= i < |Sort(zs)| && Sort(zs)[i] == "";
    assert i == 0 || AtMost(Sort(zs)[0], Sort(zs)[i]);
  }

  /** A second call on the SKUs the first one changed gives the same answer, in either mode. */
  lemma {:induction false} ChoosingAgain(cp: seq<string>, w: seq<string>, expanded: bool)
    ensures Choose(LeftBehind(cp, expanded), LeftBehind(w, expanded), expanded) == Choose(cp, w, expanded)
  {
    AllowedOfLeftBehind(cp, expanded);
    AllowedOfLeftBehind(w, expanded);
  }

  /** But a basic-mode call does not leave an expanded-mode call what it would have found: the
      list is unspoilt exactly when every zone was basic or blank to begin with. */
  lemma {:induction false} BasicModeSpoilsExpandedMode(zs: seq<string>)
    ensures Allowed(LeftBehind(zs, false), true) == Allowed(zs, true) <==> forall z :: z in zs ==> Basic(z) || z == ""
  {
    var kept, left := KeepBasic(Sort(zs)), LeftBehind(zs, false);
    if Allowed(left, true) == Allowed(zs, true) {
      SortSorts(left);
      SortSorts(zs);
      KeepBasicMembers(Sort(zs));
      forall z | z in zs
        ensures Basic(z) || z == ""
      {
        assert z in multiset(left);
        assert z in left;
      }
    } else if forall z :: z in zs ==> Basic(z) || z == "" {
      forall z
        ensures multiset(left)[z] == multiset(zs)[z]
      {
        LeftBehindCount(zs, z);
      }
      SortSorts(left);
      SortSorts(zs);
      SortedIsUnique(Sort(left), Sort(zs));
    }
  }

  lemma {:induction false} BlankMovesToFront(kept: seq<string>)
    requires Sorted(kept)
    ensures Sort(kept + [""]) == [""] + kept
  {
    PrependSorted("", kept);
    SortSorts(kept + [""]);
    assert multiset([""] + kept) == multiset{""} + multiset(kept) == multiset(kept + [""]);
    SortedIsUnique(Sort(kept + [""]), [""] + kept);
  }

  /** For instance, with a fourth zone behind the basic ones the expanded mode finds a blank in
      front of them. */
  lemma {:induction false} FourthZoneIsLost(kept: seq<string>, d: string)
    requires Sorted(kept + [d]) && !Basic(d) && forall z :: z in kept ==> Basic(z)
    ensures Allowed(kept + [d], true) == kept + [d]
    ensures Allowed(LeftBehind(kept + [d], false), true) == [""] + kept
  {
    SortOfSorted(kept + [d]);
    assert [d][1..] == [];
    KeepBasicAppend(kept, [d]);
    KeepBasicAll(kept);
    assert KeepBasic(kept + [d]) == kept;
    assert Blanks(1) == [""];
    assert Sorted(kept) by { assert forall i :: 0 <= i < |kept| ==> kept[i] == (kept + [d])[i]; }
    BlankMovesToFront(kept);
  }

  lemma {:induction false} ZonesOneToFour()
    ensures Allowed(["1", "2", "3", "4"], true) == ["1", "2", "3", "4"]
    ensures Allowed(LeftBehind(["1", "2", "3", "4"], false), true) == ["", "1", "2", "3"]
  {
    OneCharAtMost('1', '2');
    OneCharAtMost('1', '3');
    OneCharAtMost('1', '4');
    OneCharAtMost('2', '3');
    OneCharAtMost('2', '4');
    OneCharAtMost('3', '4');
    var kept := ["1", "2", "3"];
    assert kept + ["4"] == ["1", "2", "3", "4"] && [""] + kept == ["", "1", "2", "3"];
    FourthZoneIsLost(kept, "4");
  }

  lemma {:induction false} OneCharAtMost(c: char, d: char)
    requires c <= d
    ensures AtMost([c], [d])
  {
    assert [c][1..] == [] && [d][1..] == [];
  }

  lemma {:induction false} BlanksCount(n: nat)
    ensures multiset(Blanks(n)) == multiset{}["" := n]
  {
    if n > 0 {
      BlanksCount(n - 1);
      assert Blanks(n) == [""] + Blanks(n - 1);
    }
  }

  lemma {:induction false} BasicOrBlankCount(zs: seq<string>)
    requires forall z :: z in zs ==> Basic(z) || z == ""
    ensures multiset(zs)[""] + |KeepBasic(zs)| == |zs|
  {
    if zs != [] {
      BasicOrBlankCount(zs[1..]);
      assert zs == [zs[0]] + zs[1..];
    }
  }

  lemma {:induction false} LeftBehindCount(zs: seq<string>, z: string)
    requires forall z :: z in zs ==> Basic(z) || z == ""
    ensures multiset(LeftBehind(zs, false))[z] == multiset(zs)[z]
  {
    var sorted := Sort(zs);
    SortSorts(zs);
    SortMembers(zs);
    var kept, blanks := KeepBasic(sorted), Blanks(|zs| - |KeepBasic(sorted)|);
    CompactedCount(sorted, kept, blanks, z);
  }

  lemma {:induction false} CompactedCount(sorted: seq<string>, kept: seq<string>, blanks: seq<string>, z: string)
    requires forall z :: z in sorted ==> Basic(z) || z == ""
    requires kept == KeepBasic(sorted) && blanks == Blanks(|sorted| - |kept|)
    ensures multiset(kept + blanks)[z] == multiset(sorted)[z]
  {
    BasicOrBlankCount(sorted);
    BlanksCount(|sorted| - |kept|);
    KeepBasicCount(sorted, z);
    if !Basic(z) && z != "" {
      assert z !in sorted;
    }
  }

  // ---------------------------------------------------------------- what the choice means

  /** Filtering the sorted list is sorting the filtered list. */
  lemma {:induction false} AllowedIsSorted(zs: seq<string>, expanded: bool)
    ensures Allowed(zs, expanded) == Sort(if expanded then zs else KeepBasic(zs))
    ensures Sorted(Allowed(zs, expanded))
    ensures multiset(Allowed(zs, expanded)) == multiset(if expanded then zs else KeepBasic(zs))
  {
    SortSorts(zs);
    if !expanded {
      KeepBasicSorted(Sort(zs));
      KeepBasicPermutation(Sort(zs), zs);
      SortSorts(KeepBasic(zs));
      SortedIsUnique(KeepBasic(Sort(zs)), Sort(KeepBasic(zs)));
    }
  }

  /** The zones that may be chosen: all of them in expanded mode, else those of the three basic ones. */
  function Eligible(zs: seq<string>, expanded: bool): seq<string> {
    if expanded then zs else KeepBasic(zs)
  }

  /** Fewer than three eligible zones, but not none, are a failure that names their number; the
      control plane is looked at first. */
  lemma {:induction false} ChoiceSucceedsIff(cp: seq<string>, w: seq<string>, expanded: bool)
    ensures var (c, z) := (|Eligible(cp, expanded)|, |Eligible(w, expanded)|);
            && (Choose(cp, w, expanded).Success? <==> (c == 0 || c >= 3) && (z == 0 || z >= 3))
            && (Choose(cp, w, expanded) == Failure(TooFewControlPlaneZones(c)) <==> c == 1 || c == 2)
            && (Choose(cp, w, expanded) == Failure(TooFewWorkerZones(z)) <==> (c == 0 || c >= 3) && (z == 1 || z == 2))
  {
    AllowedIsSorted(cp, expanded);
    AllowedIsSorted(w, expanded);
  }

  /** The workers get every eligible zone, in order, or no zone at all when none is eligible. */
  lemma {:induction false} WorkersGetAll(cp: seq<string>, w: seq<string>, expanded: bool)
    requires Choose(cp, w, expanded).Success?
    ensures var z := Choose(cp, w, expanded).value.1;
            if Eligible(w, expanded) == [] then z == [""]
            else Sorted(z) && multiset(z) == multiset(Eligible(w, expanded))
  {
    AllowedIsSorted(w, expanded);
  }

  /** The control plane's half of the choice is the choice for the control plane. */
  lemma {:induction false} ControlPlaneHalf(cp: seq<string>, w: seq<string>, expanded: bool)
    requires Choose(cp, w, expanded).Success?
    ensures ChooseControlPlane(Allowed(cp, expanded)) == Success(Choose(cp, w, expanded).value.0)
  {
  }

  /** Successful control-plane zones are no zone at all, or the three smallest allowed zones in
      order: everything not chosen is at least as large as everything chosen. */
  lemma {:induction false} ControlPlaneGetsSmallest(zs: seq<string>, expanded: bool) returns (rest: seq<string>)
    requires ChooseControlPlane(Allowed(zs, expanded)).Success?
    ensures var c := ChooseControlPlane(Allowed(zs, expanded)).value;
            var allowed := if expanded then zs else KeepBasic(zs);
            if allowed == [] then c == [""]
            else
              && |c| == CONTROL_PLANE_MACHINE_COUNT && Sorted(c)
              && multiset(c) + multiset(rest) == multiset(allowed)
              && forall x, y :: x in c && y in rest ==> AtMost(x, y)
  {
    var allowed := Allowed(zs, expanded);
    AllowedIsSorted(zs, expanded);
    if |allowed| == 0 {
      rest := [];
    } else {
      rest := allowed[CONTROL_PLANE_MACHINE_COUNT..];
      assert allowed == allowed[..CONTROL_PLANE_MACHINE_COUNT] + rest;
    }
  }

  /** Distinct zones in the SKU spread the control plane over distinct zones. */
  lemma {:induction false} ControlPlaneSpreads(zs: seq<string>, expanded: bool, i: nat, j: nat)
    requires forall z :: multiset(zs)[z] <= 1
    requires ChooseControlPlane(Allowed(zs, expanded)).Success?
    requires i < j < |ChooseControlPlane(Allowed(zs, expanded)).value|
    ensures ChooseControlPlane(Allowed(zs, expanded)).value[i] != ChooseControlPlane(Allowed(zs, expanded)).value[j]
  {
    var allowed := Allowed(zs, expanded);
    AllowedIsSorted(zs, expanded);
    if allowed[i] == allowed[j] {
      RepeatedIsCounted(allowed, i, j);
      KeepBasicCount(zs, allowed[i]);
    }
  }

  // ---------------------------------------------------------------- the code, on shared arrays

  /** `slices.Sort` on the first n elements. */
  method SortPrefix(a: array<string>, n: nat)
    requires n <= a.Length
    modifies a
    ensures a[..n] == Sort(old(a[..n])) && a[n..] == old(a[n..])
  {
    var s := Sort(a[..n]);
    forall i | 0 <= i < n {
      a[i] := s[i];
    }
    assert a[..n] == s;
  }

  method SortSlice(s: Slice)
    requires ValidSlice(s)
    modifies Arrays(s)
    ensures Contents(s) == Sort(old(Contents(s)))
  {
    if s.Slice? {
      SortPrefix(s.arr, s.len);
    }
  }

  lemma {:induction false} KeepBasicSnoc(zs: seq<string>, j: nat)
    requires j < |zs|
    ensures KeepBasic(zs[..j + 1]) == KeepBasic(zs[..j]) + (if Basic(zs[j]) then [zs[j]] else [])
  {
    assert zs[..j + 1] == zs[..j] + [zs[j]];
    KeepBasicAppend(zs[..j], [zs[j]]);
    assert [zs[j]][1..] == [];
  }

  /** `slices.DeleteFunc` with the "not a basic zone" test: compacts in place, clears the tail,
      and returns the length that is left. */
  method DeleteNonBasic(a: array<string>, n: nat) returns (k: nat)
    requires n <= a.Length
    modifies a
    ensures k == |KeepBasic(old(a[..n]))|
    ensures a[..n] == KeepBasic(old(a[..n])) + Blanks(n - |KeepBasic(old(a[..n]))|)
    ensures a[n..] == old(a[n..])
  {
    ghost var was := a[..n];
    k := FirstNonBasic(a, n);
    assert a[..k] == was[..k];
    KeepBasicAll(was[..k]);
    if k == n {
      assert was[..n] == was;
      return;
    }
    KeepBasicSnoc(was, k);
    assert a[..k + 1] == was[..k + 1];
    k := Compact(a, k, n);
    ClearRange(a, k, n);
    assert a[..n] == a[..k] + a[k..n];
  }

  /** The second half of the deletion: a[i] is to go, everything before it stays. */
  method Compact(a: array<string>, start: nat, n: nat) returns (i: nat)
    requires start < n <= a.Length && !Basic(a[start])
    requires KeepBasic(a[..start + 1]) == a[..start]
    modifies a
    ensures i <= n && a[..i] == KeepBasic(old(a[..n]))
    ensures a[n..] == old(a[n..])
  {
    ghost var was := a[..n];
    assert was[..start + 1] == a[..start + 1];
    i := start;
    var j := start + 1;
    while j < n
      invariant i < j <= n
      invariant a[..i] == KeepBasic(was[..j])
      invariant forall x :: j <= x < a.Length ==> a[x] == old(a[x])
    {
      KeepBasicSnoc(was, j);
      if Basic(a[j]) {
        ghost var before := a[..i];
        a[i] := a[j];
        assert a[..i + 1] == before + [was[j]];
        i := i + 1;
      }
      j := j + 1;
    }
    assert was[..n] == was;
  }

  method FirstNonBasic(a: array<string>, n: nat) returns (i: nat)
    requires n <= a.Length
    ensures i <= n && (i < n ==> !Basic(a[i]))
    ensures forall z :: z in a[..i] ==> Basic(z)
  {
    i := 0;
    while i < n && Basic(a[i])
      invariant i <= n && forall x :: 0 <= x < i ==> Basic(a[x])
    {
      i := i + 1;
    }
  }

  /** `clear` on a[k..n]. */
  method ClearRange(a: array<string>, k: nat, n: nat)
    requires k <= n <= a.Length
    modifies a
    ensures a[..k] == old(a[..k]) && a[k..n] == Blanks(n - k) && a[n..] == old(a[n..])
  {
    forall i | k <= i < n {
      a[i] := "";
    }
  }

  method DeleteFromSlice(s: Slice) returns (r: Slice)
    requires ValidSlice(s)
    modifies Arrays(s)
    ensures s.Nil? ==> r == s
    ensures s.Slice? ==> r == Slice(s.arr, |KeepBasic(old(Contents(s)))|)
    ensures Contents(s) == Compacted(old(Contents(s)))
  {
    if s.Nil? {
      return s;
    }
    var k := DeleteNonBasic(s.arr, s.len);
    r := Slice(s.arr, k);
  }

  /** Two zone lists are one list or have nothing in common. */
  predicate SameOrApart(s: Slice, t: Slice) {
    s == t || Arrays(s) !! Arrays(t)
  }

  /** A shorter slice of the same array. */
  predicate PrefixOf(r: Slice, s: Slice) {
    r == s || (r.Slice? && s.Slice? && r.arr == s.arr && r.len <= s.len)
  }

  method SortBoth(cp: Slice, w: Slice)
    requires ValidSlice(cp) && ValidSlice(w) && SameOrApart(cp, w)
    modifies Arrays(cp), Arrays(w)
    ensures Contents(cp) == Sort(old(Contents(cp))) && Contents(w) == Sort(old(Contents(w)))
  {
    SortSorts(Contents(cp));
    SortOfSorted(Sort(Contents(cp)));
    SortSlice(cp);
    SortSlice(w);
  }

  /** The two sorts and, in basic mode, the two deletions, in the source's order. */
  method SortAndFilter(cp: Slice, w: Slice, expanded: bool) returns (cp': Slice, w': Slice)
    requires ValidSlice(cp) && ValidSlice(w) && SameOrApart(cp, w)
    modifies Arrays(cp), Arrays(w)
    ensures PrefixOf(cp', cp) && PrefixOf(w', w)
    ensures Contents(cp') == Allowed(old(Contents(cp)), expanded)
    ensures Contents(w') == Allowed(old(Contents(w)), expanded)
    ensures Contents(cp) == LeftBehind(old(Contents(cp)), expanded)
    ensures Contents(w) == LeftBehind(old(Contents(w)), expanded)
  {
    ghost var cpWas, wWas := Contents(cp), Contents(w);
    SortBoth(cp, w);
    assert Contents(cp) == Sort(cpWas) && Contents(w) == Sort(wWas);
    if expanded {
      return cp, w;
    }
    cp', w' := DeleteFromBoth(cp, w);
  }

  lemma {:induction false} CompactingAgain(zs: seq<string>)
    ensures KeepBasic(Compacted(zs)) == KeepBasic(zs) && Compacted(Compacted(zs)) == Compacted(zs)
  {
    var kept := KeepBasic(zs);
    KeepBasicMembers(zs);
    KeepBasicAppend(kept, Blanks(|zs| - |kept|));
    KeepBasicAll(kept);
    BlanksAreNotBasic(|zs| - |kept|);
  }

  method DeleteFromBoth(cp: Slice, w: Slice) returns (cp': Slice, w': Slice)
    requires ValidSlice(cp) && ValidSlice(w) && SameOrApart(cp, w)
    modifies Arrays(cp), Arrays(w)
    ensures PrefixOf(cp', cp) && PrefixOf(w', w)
    ensures Contents(cp') == KeepBasic(old(Contents(cp)))
    ensures Contents(w') == KeepBasic(old(Contents(w)))
    ensures Contents(cp) == Compacted(old(Contents(cp))) && Contents(w) == Compacted(old(Contents(w)))
  {
    ghost var cpWas, wWas := Contents(cp), Contents(w);
    CompactingAgain(cpWas);
    cp' := DeleteFromSlice(cp);
    assert Contents(w) == if cp == w then Compacted(wWas) else wWas;
    w' := DeleteFromSlice(w);
    FrontReads(cp', cp, cpWas);
    FrontReads(w', w, wWas);
  }

  /** The shorter slice reads the zones that were kept. */
  lemma {:induction false} FrontReads(r: Slice, s: Slice, was: seq<string>)
    requires ValidSlice(s) && Contents(s) == Compacted(was)
    requires r == if s.Nil? then s else Slice(s.arr, |KeepBasic(was)|)
    ensures ValidSlice(r) && Contents(r) == KeepBasic(was) && PrefixOf(r, s)
  {
    assert s.Slice? ==> Contents(r) == Contents(s)[..|KeepBasic(was)|];
  }

  function SliceLength(s: Slice): nat {
    if s.Nil? then 0 else s.len
  }

  /** A slice of the other's own array, from its start. */
  predicate OwnPart(r: Slice, s: Slice) {
    r.Slice? && s.Slice? && r.arr == s.arr && r.len <= s.len
  }

  method NoZones() returns (r: Slice)
    ensures r.Slice? && fresh(r.arr) && ValidSlice(r) && Contents(r) == [""]
  {
    var a := new string[1](_ => "");
    r := Slice(a, 1);
  }

  /** Picking from the allowed zones makes a slice of their array, or a new one when there are none. */
  method PickControlPlane(cp: Slice) returns (r: Result<Slice, ZoneError>)
    requires ValidSlice(cp)
    ensures r.Failure? ==> ChooseControlPlane(Contents(cp)) == Failure(r.error)
    ensures r.Success? ==> ValidSlice(r.value) && ChooseControlPlane(Contents(cp)) == Success(Contents(r.value))
    ensures r.Success? ==> if Contents(cp) == [] then r.value.Slice? && fresh(r.value.arr) else OwnPart(r.value, cp)
  {
    if SliceLength(cp) == 0 {
      var none := NoZones();
      return Success(none);
    }
    if SliceLength(cp) < CONTROL_PLANE_MACHINE_COUNT {
      return Failure(TooFewControlPlaneZones(SliceLength(cp)));
    }
    r := Success(Slice(cp.arr, CONTROL_PLANE_MACHINE_COUNT));
    assert Contents(r.value) == Contents(cp)[..CONTROL_PLANE_MACHINE_COUNT];
  }

  method PickWorkers(w: Slice) returns (r: Result<Slice, ZoneError>)
    requires ValidSlice(w)
    ensures r.Failure? ==> ChooseWorkers(Contents(w)) == Failure(r.error)
    ensures r.Success? ==> ValidSlice(r.value) && ChooseWorkers(Contents(w)) == Success(Contents(r.value))
    ensures r.Success? ==> if Contents(w) == [] then r.value.Slice? && fresh(r.value.arr) else OwnPart(r.value, w)
  {
    if SliceLength(w) == 0 {
      var none := NoZones();
      return Success(none);
    }
    if SliceLength(w) < MIN_WORKER_ZONES {
      return Failure(TooFewWorkerZones(SliceLength(w)));
    }
    r := Success(w);
  }

  /** Sorting a slice that is sorted already changes no element of its array. */
  method ResortSlice(s: Slice)
    requires ValidSlice(s) && s.Slice? && Sort(Contents(s)) == Contents(s)
    modifies s.arr
    ensures s.arr[..] == old(s.arr[..])
  {
    assert s.arr[..] == s.arr[..s.len] + s.arr[s.len..];
    SortPrefix(s.arr, s.len);
    assert s.arr[..] == s.arr[..s.len] + s.arr[s.len..];
  }

  lemma {:induction false} ChosenWorkersAreSorted(zs: seq<string>, expanded: bool)
    requires ChooseWorkers(Allowed(zs, expanded)).Success?
    ensures Sort(ChooseWorkers(Allowed(zs, expanded)).value) == ChooseWorkers(Allowed(zs, expanded)).value
  {
    AllowedIsSorted(zs, expanded);
    SortOfSorted(ChooseWorkers(Allowed(zs, expanded)).value);
  }

  /** The source's method, with the answer it would give on separate copies, whether or not the
      two SKUs share their array; what it leaves in each SKU; and the slices it returns, which are
      parts of the SKUs' own arrays unless no zone is allowed. */
  method DetermineAvailabilityZones(controlPlane: ResourceSku, worker: ResourceSku, expanded: bool)
      returns (r: Result<(Slice, Slice), ZoneError>)
    requires ValidSlice(controlPlane.Zones()) && ValidSlice(worker.Zones())
    requires SameOrApart(controlPlane.Zones(), worker.Zones())
    modifies Arrays(controlPlane.Zones()), Arrays(worker.Zones())
    ensures var chosen := Choose(old(Contents(controlPlane.Zones())), old(Contents(worker.Zones())), expanded);
            match r
            case Failure(e) => chosen == Failure(e)
            case Success((c, w)) => ValidSlice(c) && ValidSlice(w) && chosen == Success((Contents(c), Contents(w)))
    ensures Contents(controlPlane.Zones()) == LeftBehind(old(Contents(controlPlane.Zones())), expanded)
    ensures Contents(worker.Zones()) == LeftBehind(old(Contents(worker.Zones())), expanded)
    ensures r.Success? ==>
              if Allowed(old(Contents(controlPlane.Zones())), expanded) == [] then r.value.0.Slice? && fresh(r.value.0.arr)
              else OwnPart(r.value.0, controlPlane.Zones())
    ensures r.Success? ==>
              if Allowed(old(Contents(worker.Zones())), expanded) == [] then r.value.1.Slice? && fresh(r.value.1.arr)
              else OwnPart(r.value.1, worker.Zones())
  {
    ghost var wWas := Contents(worker.Zones());
    var cp, w := SortAndFilter(controlPlane.Zones(), worker.Zones(), expanded);
    if ChooseWorkers(Allowed(wWas, expanded)).Success? {
      ChosenWorkersAreSorted(wWas, expanded);
    }
    r := PickBoth(controlPlane.Zones(), worker.Zones(), cp, w);
  }

  /** The choice among the allowed zones of both, and the last sort. */
  method PickBoth(cpOwn: Slice, wOwn: Slice, cp: Slice, w: Slice) returns (r: Result<(Slice, Slice), ZoneError>)
    requires ValidSlice(cpOwn) && ValidSlice(wOwn) && PrefixOf(cp, cpOwn) && PrefixOf(w, wOwn)
    requires ChooseWorkers(Contents(w)).Success? ==> Sort(ChooseWorkers(Contents(w)).value) == ChooseWorkers(Contents(w)).value
    modifies Arrays(w)
    ensures Contents(cpOwn) == old(Contents(cpOwn)) && Contents(wOwn) == old(Contents(wOwn))
    ensures match (ChooseControlPlane(old(Contents(cp))), ChooseWorkers(old(Contents(w))))
            case (Failure(e), _) => r == Failure(e)
            case (_, Failure(e)) => r == Failure(e)
            case (Success(c), Success(z)) =>
              && r.Success? && ValidSlice(r.value.0) && ValidSlice(r.value.1)
              && Contents(r.value.0) == c && Contents(r.value.1) == z
    ensures r.Success? ==> if old(Contents(cp)) == [] then r.value.0.Slice? && fresh(r.value.0.arr) else OwnPart(r.value.0, cp)
    ensures r.Success? ==> if old(Contents(w)) == [] then r.value.1.Slice? && fresh(r.value.1.arr) else OwnPart(r.value.1, w)
  {
    var cpZones := PickControlPlane(cp);
    if cpZones.Failure? {
      return Failure(cpZones.error);
    }
    var wZones := PickWorkers(w);
    if wZones.Failure? {
      return Failure(wZones.error);
    }
    r := ResortWorkers(cpOwn, wOwn, cpZones.value, wZones.value);
  }

  /** The last sort, of the worker zones: whatever shares their array stays as it was. */
  method ResortWorkers(cp: Slice, w: Slice, cpZones: Slice, wZones: Slice) returns (r: Result<(Slice, Slice), ZoneError>)
    requires ValidSlice(cp) && ValidSlice(w) && ValidSlice(cpZones) && ValidSlice(wZones)
    requires wZones.Slice? && Sort(Contents(wZones)) == Contents(wZones)
    modifies wZones.arr
    ensures r == Success((cpZones, wZones))
    ensures Contents(cp) == old(Contents(cp)) && Contents(w) == old(Contents(w))
    ensures Contents(cpZones) == old(Contents(cpZones)) && Contents(wZones) == old(Contents(wZones))
  {
    ghost var cpWas, wWas, cpZonesWas, wZonesWas := Contents(cp), Contents(w), Contents(cpZones), Contents(wZones);
    FrontOfArray(cp);
    FrontOfArray(w);
    FrontOfArray(cpZones);
    FrontOfArray(wZones);
    ResortSlice(wZones);
    FrontOfArray(cp);
    FrontOfArray(w);
    FrontOfArray(cpZones);
    FrontOfArray(wZones);
    assert Contents(cp) == cpWas && Contents(w) == wWas && Contents(cpZones) == cpZonesWas && Contents(wZones) == wZonesWas;
    r := Success((cpZones, wZones));
  }

  lemma {:induction false} FrontOfArray(s: Slice)
    requires ValidSlice(s)
    ensures s.Slice? ==> Contents(s) == s.arr[..][..s.len]
  {
  }

  lemma {:induction false} PartReads(r: Slice, s: Slice)
    requires ValidSlice(s) && OwnPart(r, s)
    ensures ValidSlice(r) && Contents(r) == Contents(s)[..r.len]
  {
  }

  /** A slice that an earlier call returned: part of the SKU's list, or apart from both lists. */
  predicate Held(s: Slice, own: Slice, other: Slice) {
    s.Slice? && ValidSlice(s) && (OwnPart(s, own) || s.arr !in Arrays(own) + Arrays(other))
  }

  /** A call made while slices are held that an earlier call returned: what they read afterwards. */
  method DetermineBeside(controlPlane: ResourceSku, worker: ResourceSku, expanded: bool, c: Slice, w: Slice)
      returns (r: Result<(Slice, Slice), ZoneError>)
    requires ValidSlice(controlPlane.Zones()) && ValidSlice(worker.Zones())
    requires SameOrApart(controlPlane.Zones(), worker.Zones())
    requires Held(c, controlPlane.Zones(), worker.Zones()) && Held(w, worker.Zones(), controlPlane.Zones())
    modifies Arrays(controlPlane.Zones()), Arrays(worker.Zones())
    ensures var chosen := Choose(old(Contents(controlPlane.Zones())), old(Contents(worker.Zones())), expanded);
            match r
            case Failure(e) => chosen == Failure(e)
            case Success((c, w)) => ValidSlice(c) && ValidSlice(w) && chosen == Success((Contents(c), Contents(w)))
    ensures Contents(c) == if OwnPart(c, controlPlane.Zones()) then LeftBehind(old(Contents(controlPlane.Zones())), expanded)[..c.len]
                           else old(Contents(c))
    ensures Contents(w) == if OwnPart(w, worker.Zones()) then LeftBehind(old(Contents(worker.Zones())), expanded)[..w.len]
                           else old(Contents(w))
    ensures LeftBehind(old(Contents(controlPlane.Zones())), expanded) == old(Contents(controlPlane.Zones())) ==> Contents(c) == old(Contents(c))
    ensures LeftBehind(old(Contents(worker.Zones())), expanded) == old(Contents(worker.Zones())) ==> Contents(w) == old(Contents(w))
  {
    if OwnPart(c, controlPlane.Zones()) {
      PartReads(c, controlPlane.Zones());
    }
    if OwnPart(w, worker.Zones()) {
      PartReads(w, worker.Zones());
    }
    r := DetermineAvailabilityZones(controlPlane, worker, expanded);
    if OwnPart(c, controlPlane.Zones()) {
      PartReads(c, controlPlane.Zones());
    }
    if OwnPart(w, worker.Zones()) {
      PartReads(w, worker.Zones());
    }
  }

  /** What is chosen is the front of what is left behind, unless no zone is allowed. */
  lemma {:induction false} ChosenIsFront(zs: seq<string>, expanded: bool, m: nat)
    requires m <= |Allowed(zs, expanded)|
    ensures LeftBehind(zs, expanded)[..m] == Allowed(zs, expanded)[..m]
  {
  }

  /** Two calls in a row, on the same SKUs and in the same mode, give the same answer; and the
      slices the first call returned still read as they did. */
  method DetermineTwice(controlPlane: ResourceSku, worker: ResourceSku, expanded: bool)
      returns (first: Result<(Slice, Slice), ZoneError>, second: Result<(Slice, Slice), ZoneError>)
    requires ValidSlice(controlPlane.Zones()) && ValidSlice(worker.Zones())
    requires SameOrApart(controlPlane.Zones(), worker.Zones())
    modifies Arrays(controlPlane.Zones()), Arrays(worker.Zones())
    ensures var chosen := Choose(old(Contents(controlPlane.Zones())), old(Contents(worker.Zones())), expanded);
            match (first, second)
            case (Success((c1, w1)), Success((c2, w2))) =>
              && ValidSlice(c1) && ValidSlice(w1) && ValidSlice(c2) && ValidSlice(w2)
              && chosen == Success((Contents(c1), Contents(w1))) && chosen == Success((Contents(c2), Contents(w2)))
            case _ => first == second && chosen.Failure? && first == Failure(chosen.error)
  {
    ghost var cp, w := Contents(controlPlane.Zones()), Contents(worker.Zones());
    ChoosingAgain(cp, w, expanded);
    LeftBehindAgain(cp, expanded);
    LeftBehindAgain(w, expanded);
    first := DetermineAvailabilityZones(controlPlane, worker, expanded);
    if first.Success? {
      second := DetermineBeside(controlPlane, worker, expanded, first.value.0, first.value.1);
    } else {
      second := DetermineAvailabilityZones(controlPlane, worker, expanded);
    }
  }

  /** A call in basic mode and one in expanded mode.  The second one changes what the slices the
      first one returned read: each of them exactly when its SKU had a zone that is not basic,
      unless no zone was allowed and the slice is none of the SKU's. */
  method BasicThenExpanded(controlPlane: ResourceSku, worker: ResourceSku)
      returns (first: Result<(Slice, Slice), ZoneError>, second: Result<(Slice, Slice), ZoneError>)
    requires ValidSlice(controlPlane.Zones()) && ValidSlice(worker.Zones())
    requires SameOrApart(controlPlane.Zones(), worker.Zones())
    modifies Arrays(controlPlane.Zones()), Arrays(worker.Zones())
    ensures var cp, w := old(Contents(controlPlane.Zones())), old(Contents(worker.Zones()));
            var chosen := Choose(cp, w, false);
            && (first.Success? <==> chosen.Success?)
            && (first.Success? ==>
                  && ValidSlice(first.value.0) && ValidSlice(first.value.1)
                  && (Contents(first.value.0) == chosen.value.0 <==> Allowed(cp, false) == [] || AllBasic(cp))
                  && (Contents(first.value.1) == chosen.value.1 <==> Allowed(w, false) == [] || AllBasic(w)))
  {
    ghost var cp, w := Contents(controlPlane.Zones()), Contents(worker.Zones());
    first := DetermineAvailabilityZones(controlPlane, worker, false);
    if first.Failure? {
      second := DetermineAvailabilityZones(controlPlane, worker, true);
      return;
    }
    second := ExpandedBeside(controlPlane, worker, first.value.0, first.value.1, cp, w);
  }

  /** The second of the two calls, while the slices are held that the first one has just returned. */
  method ExpandedBeside(controlPlane: ResourceSku, worker: ResourceSku, c: Slice, w: Slice,
                        ghost cpWas: seq<string>, ghost wWas: seq<string>) returns (r: Result<(Slice, Slice), ZoneError>)
    requires ValidSlice(controlPlane.Zones()) && ValidSlice(worker.Zones())
    requires SameOrApart(controlPlane.Zones(), worker.Zones())
    requires Held(c, controlPlane.Zones(), worker.Zones()) && Held(w, worker.Zones(), controlPlane.Zones())
    requires Contents(controlPlane.Zones()) == LeftBehind(cpWas, false) && Contents(worker.Zones()) == LeftBehind(wWas, false)
    requires OwnPart(c, controlPlane.Zones()) <==> Allowed(cpWas, false) != []
    requires OwnPart(w, worker.Zones()) <==> Allowed(wWas, false) != []
    requires OwnPart(c, controlPlane.Zones()) ==> 0 < c.len <= |Allowed(cpWas, false)|
    requires OwnPart(w, worker.Zones()) ==> 0 < w.len <= |Allowed(wWas, false)|
    modifies Arrays(controlPlane.Zones()), Arrays(worker.Zones())
    ensures Contents(c) == old(Contents(c)) <==> Allowed(cpWas, false) == [] || AllBasic(cpWas)
    ensures Contents(w) == old(Contents(w)) <==> Allowed(wWas, false) == [] || AllBasic(wWas)
  {
    ghost var cRead, wRead := Contents(c), Contents(w);
    FrontOf(controlPlane.Zones(), c, cpWas);
    FrontOf(worker.Zones(), w, wWas);
    r := DetermineBeside(controlPlane, worker, true, c, w);
    RereadsIff(cpWas, OwnPart(c, controlPlane.Zones()), c.len, cRead, Contents(c));
    RereadsIff(wWas, OwnPart(w, worker.Zones()), w.len, wRead, Contents(w));
  }

  lemma {:induction false} FrontOf(own: Slice, s: Slice, zs: seq<string>)
    requires ValidSlice(own) && Contents(own) == LeftBehind(zs, false)
    ensures OwnPart(s, own) ==> ValidSlice(s) && Contents(s) == LeftBehind(zs, false)[..s.len]
  {
  }

  /** What a slice reads before and after: it changes exactly if it is the SKU's own and the SKU had a
      zone that is not basic. */
  lemma {:induction false} RereadsIff(zs: seq<string>, own: bool, len: nat, before: seq<string>, after: seq<string>)
    requires own <==> Allowed(zs, false) != []
    requires own ==> 0 < len <= |Allowed(zs, false)| && before == LeftBehind(zs, false)[..len]
    requires after == if own then LeftBehind(LeftBehind(zs, false), true)[..len] else before
    ensures after == before <==> Allowed(zs, false) == [] || AllBasic(zs)
  {
    if own {
      ChosenIsFront(zs, false, len);
      KeptFrontStaysIff(zs, len);
    }
  }

  predicate AllBasic(zs: seq<string>) {
    forall z :: z in zs ==> Basic(z)
  }

  // ---------------------------------------------------------------- the zones in the VM copy loop

  /** The zone attribute of the VM resource: none, or an expression over the template's parameter. */
  datatype ZoneExpression = NonZonal | ParameterAtCopyIndex

  function ZonesAttribute(controlPlaneZones: seq<string>): ZoneExpression {
    if controlPlaneZones == [""] then NonZonal else ParameterAtCopyIndex
  }

  datatype Deployed = NoZone | InZone(zone: string) | IndexOutOfBounds

  /** What the deployment engine makes of `parameters('controlPlaneZones')[copyIndex(0)]`. */
  function DeployZone(e: ZoneExpression, controlPlaneZones: seq<string>, copyIndex: nat): Deployed {
    match e
    case NonZonal => NoZone
    case ParameterAtCopyIndex =>
      if copyIndex < |controlPlaneZones| then InZone(controlPlaneZones[copyIndex]) else IndexOutOfBounds
  }

  /** The zones of the install config: in the one-zone test region the selection is bypassed. */
  function ConfiguredZones(oneZoneRegion: bool, cp: seq<string>, w: seq<string>, expanded: bool)
      : Result<(seq<string>, seq<string>), ZoneError>
  {
    if oneZoneRegion then Success(([""], [""])) else Choose(cp, w, expanded)
  }

  /** No copy of the master VM ever indexes past the zone list, for any region, any SKUs and
      either mode; and the copies are all without a zone or in the chosen zones one after another. */
  lemma {:induction false} CopyLoopStaysInBounds(oneZoneRegion: bool, cp: seq<string>, w: seq<string>, expanded: bool,
                                                 copyIndex: nat)
    requires ConfiguredZones(oneZoneRegion, cp, w, expanded).Success?
    requires copyIndex < CONTROL_PLANE_MACHINE_COUNT
    ensures var zs := ConfiguredZones(oneZoneRegion, cp, w, expanded).value.0;
            var d := DeployZone(ZonesAttribute(zs), zs, copyIndex);
            var allowed := if expanded then cp else KeepBasic(cp);
            if oneZoneRegion || allowed == [] then d == NoZone
            else copyIndex < |Sort(allowed)| && d == InZone(Sort(allowed)[copyIndex])
    ensures ConfiguredZones(oneZoneRegion, cp, w, expanded).value.1 == if oneZoneRegion then [""] else Choose(cp, w, expanded).value.1
  {
    if !oneZoneRegion {
      AllowedIsSorted(cp, expanded);
    }
  }
}
