/**
 Replace-or-append on lists of keyed entries: `ReplaceOrAppend`, `ReplaceOrAppendSystemd` and
 `replaceOrAppend` of `pkg/data/bootstrap/util.go`.  An ignition file is keyed by its path and a
 systemd unit by its name.

 The functions say what the code does to a list; `Merged` says, without running anything, what
 the list must look like afterwards; the class is the code, on a growable array.
 */
module KeyedList {
  import opened Wrappers

  datatype Entry<T> = Entry(key: string, body: T)

  function Keys<T>(es: seq<Entry<T>>): (ks: seq<string>)
    ensures |ks| == |es| && forall i :: 0 <= i < |es| ==> ks[i] == es[i].key
  {
    seq(|es|, i requires 0 <= i < |es| => es[i].key)
  }

  /** The first position of k, or the length. */
  function IndexOf(ks: seq<string>, k: string): (i: nat)
    ensures i <= |ks|
    ensures i < |ks| ==> ks[i] == k
    ensures forall j :: 0 <= j < i ==> ks[j] != k
  {
    if ks == [] || ks[0] == k then 0 else 1 + IndexOf(ks[1..], k)
  }

  function Upsert<T>(es: seq<Entry<T>>, e: Entry<T>): seq<Entry<T>> {
    var i := IndexOf(Keys(es), e.key);
    if i < |es| then es[i := e] else es + [e]
  }

  /** One entry after another, the first match replaced in place. */
  function UpsertAll<T>(es: seq<Entry<T>>, add: seq<Entry<T>>): seq<Entry<T>> {
    if add == [] then es else Upsert(UpsertAll(es, add[..|add| - 1]), add[|add| - 1])
  }

  // ---------------------------------------------------------------- the intended result

  /** The last entry with key k. */
  function Last<T>(add: seq<Entry<T>>, k: string): Option<Entry<T>> {
    if add == [] then None
    else if add[|add| - 1].key == k then Some(add[|add| - 1])
    else Last(add[..|add| - 1], k)
  }

  /** The keys of `ks` that are not known, each once, in order of first appearance. */
  function Fresh(known: seq<string>, ks: seq<string>): (f: seq<string>)
    ensures |f| <= |ks|
  {
    if ks == [] then []
    else
      var f := Fresh(known, ks[..|ks| - 1]);
      var k := ks[|ks| - 1];
      if k in known || k in f then f else f + [k]
  }

  /** The first entry with key k. */
  function Lookup<T>(es: seq<Entry<T>>, k: string): Option<Entry<T>> {
    var i := IndexOf(Keys(es), k);
    if i < |es| then Some(es[i]) else None
  }

  ghost predicate Distinct(ks: seq<string>) {
    forall i, j :: 0 <= i < j < |ks| ==> ks[i] != ks[j]
  }

  ghost predicate Disjoint(ks: seq<string>, ls: seq<string>) {
    forall i, j :: 0 <= i < |ks| && 0 <= j < |ls| ==> ks[i] != ls[j]
  }

  /** What stands at position i of the old part: the last new entry of that key if this is the
      key's first position, and the old entry otherwise. */
  function OldSlot<T>(es: seq<Entry<T>>, add: seq<Entry<T>>, i: nat): Entry<T>
    requires i < |es|
  {
    var last := Last(add, es[i].key);
    if IndexOf(Keys(es), es[i].key) == i && last.Some? then last.value else es[i]
  }

  lemma {:induction false} LastHasKey<T>(add: seq<Entry<T>>, k: string)
    ensures Last(add, k).Some? <==> k in Keys(add)
    ensures Last(add, k).Some? ==> Last(add, k).value.key == k && Last(add, k).value in add
  {
    if add != [] {
      var init := add[..|add| - 1];
      LastHasKey(init, k);
      assert Keys(add) == Keys(init) + [add[|add| - 1].key];
    }
  }

  lemma {:induction false} FreshMembers(known: seq<string>, ks: seq<string>)
    ensures forall k :: k in Fresh(known, ks) <==> k in ks && k !in known
  {
    if ks != [] {
      FreshMembers(known, ks[..|ks| - 1]);
      assert ks == ks[..|ks| - 1] + [ks[|ks| - 1]];
    }
  }

  lemma {:induction false} FreshIsNew(known: seq<string>, ks: seq<string>)
    ensures Distinct(Fresh(known, ks)) && Disjoint(known, Fresh(known, ks))
  {
    if ks != [] {
      FreshIsNew(known, ks[..|ks| - 1]);
    }
  }

  lemma {:induction false} FreshOfKnown(known: seq<string>, ks: seq<string>)
    requires forall k :: k in ks ==> k in known
    ensures Fresh(known, ks) == []
  {
    if ks != [] {
      FreshOfKnown(known, ks[..|ks| - 1]);
    }
  }

  /** The list replace-or-append is meant to produce: old positions kept, new keys after them in
      order of first appearance, the last writer's entry everywhere. */
  ghost predicate IsMerged<T>(es: seq<Entry<T>>, add: seq<Entry<T>>, r: seq<Entry<T>>) {
    var novel := Fresh(Keys(es), Keys(add));
    && |r| == |es| + |novel|
    && (forall i: nat {:trigger OldSlot(es, add, i)} :: i < |es| ==> r[i] == OldSlot(es, add, i))
    && (forall j: nat :: j < |novel| ==> Last(add, novel[j]) == Some(r[|es| + j]))
  }

  lemma {:induction false} MergedIsUnique<T>(es: seq<Entry<T>>, add: seq<Entry<T>>, r: seq<Entry<T>>, s: seq<Entry<T>>)
    requires IsMerged(es, add, r) && IsMerged(es, add, s)
    ensures r == s
  {
    forall x | 0 <= x < |r|
      ensures r[x] == s[x]
    {
      if x < |es| {
        assert r[x] == OldSlot(es, add, x) == s[x];
      } else {
        var j: nat := x - |es|;
        assert Last(add, Fresh(Keys(es), Keys(add))[j]) == Some(r[|es| + j]) == Some(s[|es| + j]);
      }
    }
  }

  lemma {:induction false} MergedKeys<T>(es: seq<Entry<T>>, add: seq<Entry<T>>, r: seq<Entry<T>>)
    requires IsMerged(es, add, r)
    ensures Keys(r) == Keys(es) + Fresh(Keys(es), Keys(add))
  {
    var novel := Fresh(Keys(es), Keys(add));
    forall x | 0 <= x < |r|
      ensures Keys(r)[x] == (Keys(es) + novel)[x]
    {
      if x < |es| {
        LastHasKey(add, es[x].key);
        assert r[x] == OldSlot(es, add, x);
      } else {
        var j: nat := x - |es|;
        LastHasKey(add, novel[j]);
        assert r[|es| + j].key == novel[j];
      }
    }
  }

  lemma {:induction false} IndexOfAppend(ks: seq<string>, ls: seq<string>, k: string)
    ensures IndexOf(ks + ls, k) == if k in ks then IndexOf(ks, k) else |ks| + IndexOf(ls, k)
  {
    if ks == [] {
      assert ks + ls == ls;
    } else if ks[0] != k {
      IndexOfAppend(ks[1..], ls, k);
      assert (ks + ls)[1..] == ks[1..] + ls;
    }
  }

  lemma {:induction false} IndexOfMember(ks: seq<string>, k: string)
    ensures k in ks <==> IndexOf(ks, k) < |ks|
  {
    if k in ks {
      var x :| 0 <= x < |ks| && ks[x] == k;
    }
  }

  lemma {:induction false} IndexOfUnique(ks: seq<string>, j: nat)
    requires j < |ks| && Distinct(ks)
    ensures IndexOf(ks, ks[j]) == j
  {
    IndexOfMember(ks, ks[j]);
  }

  lemma {:induction false} LastSnoc<T>(add: seq<Entry<T>>, e: Entry<T>, k: string)
    ensures Last(add + [e], k) == if e.key == k then Some(e) else Last(add, k)
  {
    assert (add + [e])[..|add|] == add;
  }

  lemma {:induction false} FreshSnoc<T>(es: seq<Entry<T>>, add: seq<Entry<T>>, e: Entry<T>)
    ensures var novel := Fresh(Keys(es), Keys(add));
            Fresh(Keys(es), Keys(add + [e])) == if e.key in Keys(es) || e.key in novel then novel else novel + [e.key]
  {
    assert Keys(add + [e])[..|add|] == Keys(add);
    assert Keys(add + [e])[|add|] == e.key;
  }

  /** Where the next entry goes in a merged list. */
  lemma {:induction false} UpsertPosition<T>(es: seq<Entry<T>>, add: seq<Entry<T>>, e: Entry<T>, r: seq<Entry<T>>)
    requires IsMerged(es, add, r)
    ensures var novel := Fresh(Keys(es), Keys(add));
            IndexOf(Keys(r), e.key) == if e.key in Keys(es) then IndexOf(Keys(es), e.key) else |es| + IndexOf(novel, e.key)
  {
    MergedKeys(es, add, r);
    IndexOfAppend(Keys(es), Fresh(Keys(es), Keys(add)), e.key);
  }

  lemma {:induction false} UpsertOldSlots<T>(es: seq<Entry<T>>, add: seq<Entry<T>>, e: Entry<T>, r: seq<Entry<T>>, i: nat)
    requires IsMerged(es, add, r) && i < |es|
    ensures Upsert(r, e)[i] == OldSlot(es, add + [e], i)
  {
    UpsertPosition(es, add, e, r);
    LastSnoc(add, e, es[i].key);
    IndexOfMember(Keys(es), e.key);
    assert es[i].key in Keys(es) by { assert Keys(es)[i] == es[i].key; }
    assert r[i] == OldSlot(es, add, i);
  }

  lemma {:induction false} UpsertNewSlots<T>(es: seq<Entry<T>>, add: seq<Entry<T>>, e: Entry<T>, r: seq<Entry<T>>, j: nat)
    requires IsMerged(es, add, r) && j < |Fresh(Keys(es), Keys(add))|
    ensures Last(add + [e], Fresh(Keys(es), Keys(add))[j]) == Some(Upsert(r, e)[|es| + j])
  {
    var novel := Fresh(Keys(es), Keys(add));
    UpsertPosition(es, add, e, r);
    LastSnoc(add, e, novel[j]);
    assert Last(add, novel[j]) == Some(r[|es| + j]);
    FreshIsNew(Keys(es), Keys(add));
    if e.key in Keys(es) {
      IndexOfMember(Keys(es), e.key);
      assert Keys(es)[IndexOf(Keys(es), e.key)] != novel[j];
    } else {
      IndexOfMember(novel, e.key);
      if e.key == novel[j] {
        IndexOfUnique(novel, j);
      }
    }
  }

  /** One more entry carries the merged list over to the merged list. */
  lemma {:induction false} UpsertExtendsMerged<T>(es: seq<Entry<T>>, add: seq<Entry<T>>, e: Entry<T>, r: seq<Entry<T>>)
    requires IsMerged(es, add, r)
    ensures IsMerged(es, add + [e], Upsert(r, e))
  {
    FreshSnoc(es, add, e);
    UpsertPosition(es, add, e, r);
    IndexOfMember(Keys(es), e.key);
    IndexOfMember(Fresh(Keys(es), Keys(add)), e.key);
    forall i: nat | i < |es|
      ensures Upsert(r, e)[i] == OldSlot(es, add + [e], i)
    {
      UpsertOldSlots(es, add, e, r, i);
    }
    forall j: nat | j < |Fresh(Keys(es), Keys(add + [e]))|
      ensures Last(add + [e], Fresh(Keys(es), Keys(add + [e]))[j]) == Some(Upsert(r, e)[|es| + j])
    {
      if j < |Fresh(Keys(es), Keys(add))| {
        UpsertNewSlots(es, add, e, r, j);
      } else {
        LastSnoc(add, e, e.key);
      }
    }
  }

  /** Replace-or-append computes exactly the merged list, for any entries whatever. */
  lemma {:induction false} UpsertAllIsMerged<T>(es: seq<Entry<T>>, add: seq<Entry<T>>)
    ensures IsMerged(es, add, UpsertAll(es, add))
  {
    if add != [] {
      var init := add[..|add| - 1];
      UpsertAllIsMerged(es, init);
      UpsertExtendsMerged(es, init, add[|add| - 1], UpsertAll(es, init));
      assert init + [add[|add| - 1]] == add;
    }
  }

  // ---------------------------------------------------------------- what follows from it

  /** Looking a key up finds the last writer, or what was there before. */
  lemma {:induction false} LookupFindsLastWriter<T>(es: seq<Entry<T>>, add: seq<Entry<T>>, k: string)
    ensures Lookup(UpsertAll(es, add), k) == if Last(add, k).Some? then Last(add, k) else Lookup(es, k)
  {
    var r := UpsertAll(es, add);
    UpsertAllIsMerged(es, add);
    MergedKeys(es, add, r);
    LookupInMerged(es, add, r, k);
  }

  lemma {:induction false} LookupInMerged<T>(es: seq<Entry<T>>, add: seq<Entry<T>>, r: seq<Entry<T>>, k: string)
    requires IsMerged(es, add, r) && Keys(r) == Keys(es) + Fresh(Keys(es), Keys(add))
    ensures Lookup(r, k) == if Last(add, k).Some? then Last(add, k) else Lookup(es, k)
  {
    if k in Keys(es) {
      LookupOld(es, add, r, k);
    } else {
      LookupNew(es, add, r, k);
    }
  }

  lemma {:induction false} LookupOld<T>(es: seq<Entry<T>>, add: seq<Entry<T>>, r: seq<Entry<T>>, k: string)
    requires IsMerged(es, add, r) && Keys(r) == Keys(es) + Fresh(Keys(es), Keys(add)) && k in Keys(es)
    ensures Lookup(r, k) == if Last(add, k).Some? then Last(add, k) else Lookup(es, k)
  {
    var i := IndexOf(Keys(es), k);
    IndexOfAppend(Keys(es), Fresh(Keys(es), Keys(add)), k);
    IndexOfMember(Keys(es), k);
    assert r[i] == OldSlot(es, add, i) && es[i].key == k;
  }

  lemma {:induction false} LookupNew<T>(es: seq<Entry<T>>, add: seq<Entry<T>>, r: seq<Entry<T>>, k: string)
    requires IsMerged(es, add, r) && Keys(r) == Keys(es) + Fresh(Keys(es), Keys(add)) && k !in Keys(es)
    ensures Lookup(r, k) == if Last(add, k).Some? then Last(add, k) else Lookup(es, k)
  {
    var novel := Fresh(Keys(es), Keys(add));
    FreshMembers(Keys(es), Keys(add));
    LastHasKey(add, k);
    LookupAbsent(es, k);
    if k in novel {
      LookupAppended(Keys(es), novel, r, k);
      NovelEntry(es, add, r, IndexOf(novel, k));
    } else {
      LookupAbsent(r, k);
    }
  }

  lemma {:induction false} LookupAbsent<T>(es: seq<Entry<T>>, k: string)
    requires k !in Keys(es)
    ensures Lookup(es, k) == None
  {
    IndexOfMember(Keys(es), k);
  }

  lemma {:induction false} LookupAppended<T>(ks: seq<string>, novel: seq<string>, r: seq<Entry<T>>, k: string)
    requires Keys(r) == ks + novel && k !in ks && k in novel
    ensures IndexOf(novel, k) < |novel| && Lookup(r, k) == Some(r[|ks| + IndexOf(novel, k)])
  {
    IndexOfAppend(ks, novel, k);
    IndexOfMember(novel, k);
  }

  /** An entry behind the old part is the last writer of its key. */
  lemma {:induction false} NovelEntry<T>(es: seq<Entry<T>>, add: seq<Entry<T>>, r: seq<Entry<T>>, j: nat)
    requires IsMerged(es, add, r) && j < |Fresh(Keys(es), Keys(add))|
    ensures |es| + j < |r| && Last(add, Fresh(Keys(es), Keys(add))[j]) == Some(r[|es| + j])
  {
  }

  lemma {:induction false} DistinctAppend(ks: seq<string>, ls: seq<string>)
    ensures Distinct(ks + ls) <==> Distinct(ks) && Distinct(ls) && Disjoint(ks, ls)
  {
    var ms := ks + ls;
    if Distinct(ms) {
      assert forall i :: 0 <= i < |ks| ==> ks[i] == ms[i];
      assert forall j :: 0 <= j < |ls| ==> ls[j] == ms[|ks| + j];
      forall i, j | 0 <= i < |ks| && 0 <= j < |ls|
        ensures ks[i] != ls[j]
      {
        assert ms[i] != ms[|ks| + j];
      }
    }
  }

  /** Distinct keys stay distinct, and repeated keys stay repeated. */
  lemma {:induction false} DistinctnessIsKept<T>(es: seq<Entry<T>>, add: seq<Entry<T>>)
    ensures Distinct(Keys(UpsertAll(es, add))) <==> Distinct(Keys(es))
  {
    UpsertAllIsMerged(es, add);
    MergedKeys(es, add, UpsertAll(es, add));
    FreshIsNew(Keys(es), Keys(add));
    DistinctAppend(Keys(es), Fresh(Keys(es), Keys(add)));
  }

  /** The list grows by the number of different new keys. */
  lemma {:induction false} GrowsByDistinctNewKeys<T>(es: seq<Entry<T>>, add: seq<Entry<T>>)
    ensures |UpsertAll(es, add)| == |es| + |set k | k in Keys(add) && k !in Keys(es)|
  {
    var novel := Fresh(Keys(es), Keys(add));
    UpsertAllIsMerged(es, add);
    FreshMembers(Keys(es), Keys(add));
    FreshIsNew(Keys(es), Keys(add));
    DistinctCount(novel);
    assert (set k | k in Keys(add) && k !in Keys(es)) == (set k | k in novel);
  }

  lemma {:induction false} DistinctCount(ks: seq<string>)
    requires Distinct(ks)
    ensures |set k | k in ks| == |ks|
  {
    if ks != [] {
      var init, last := ks[..|ks| - 1], ks[|ks| - 1];
      DistinctCount(init);
      assert (set k | k in ks) == (set k | k in init) + {last};
    }
  }

  /** Doing it a second time changes nothing, whatever the list and the entries. */
  lemma {:induction false} UpsertAllIsIdempotent<T>(es: seq<Entry<T>>, add: seq<Entry<T>>)
    ensures UpsertAll(UpsertAll(es, add), add) == UpsertAll(es, add)
  {
    var r, novel := UpsertAll(es, add), Fresh(Keys(es), Keys(add));
    UpsertAllIsMerged(es, add);
    MergedKeys(es, add, r);
    FreshMembers(Keys(es), Keys(add));
    FreshOfKnown(Keys(r), Keys(add));
    forall i: nat | i < |r|
      ensures OldSlot(r, add, i) == r[i]
    {
      SlotIsSettled(es, add, r, i);
    }
    UpsertAllIsMerged(r, add);
    MergedIsUnique(r, add, UpsertAll(r, add), r);
  }

  lemma {:induction false} SlotIsSettled<T>(es: seq<Entry<T>>, add: seq<Entry<T>>, r: seq<Entry<T>>, i: nat)
    requires IsMerged(es, add, r) && i < |r|
    ensures OldSlot(r, add, i) == r[i]
  {
    MergedKeys(es, add, r);
    if i < |es| {
      OldSlotIsSettled(es, add, r, i);
    } else {
      NewSlotIsSettled(es, add, r, i - |es|);
    }
  }

  lemma {:induction false} OldSlotIsSettled<T>(es: seq<Entry<T>>, add: seq<Entry<T>>, r: seq<Entry<T>>, i: nat)
    requires IsMerged(es, add, r) && Keys(r) == Keys(es) + Fresh(Keys(es), Keys(add)) && i < |es|
    ensures OldSlot(r, add, i) == r[i]
  {
    var k := es[i].key;
    assert Keys(r)[i] == Keys(es)[i] == k && k in Keys(es);
    IndexOfAppend(Keys(es), Fresh(Keys(es), Keys(add)), k);
    assert r[i] == OldSlot(es, add, i);
  }

  lemma {:induction false} NewSlotIsSettled<T>(es: seq<Entry<T>>, add: seq<Entry<T>>, r: seq<Entry<T>>, j: nat)
    requires IsMerged(es, add, r) && Keys(r) == Keys(es) + Fresh(Keys(es), Keys(add)) && j < |Fresh(Keys(es), Keys(add))|
    ensures |es| + j < |r| && OldSlot(r, add, |es| + j) == r[|es| + j]
  {
    NovelEntry(es, add, r, j);
    LastWriterStays(Keys(es), Fresh(Keys(es), Keys(add)), add, r, j);
  }

  lemma {:induction false} LastWriterStays<T>(ks: seq<string>, novel: seq<string>, add: seq<Entry<T>>, r: seq<Entry<T>>, j: nat)
    requires Keys(r) == ks + novel && j < |novel| && Last(add, novel[j]) == Some(r[|ks| + j])
    ensures OldSlot(r, add, |ks| + j) == r[|ks| + j]
  {
    assert Keys(r)[|ks| + j] == novel[j];
  }

  /** Adding in two goes is adding once; so the one-file helper, folded, is the many-file helper. */
  lemma {:induction false} UpsertAllInTwoGoes<T>(es: seq<Entry<T>>, a: seq<Entry<T>>, b: seq<Entry<T>>)
    ensures UpsertAll(es, a + b) == UpsertAll(UpsertAll(es, a), b)
  {
    if b == [] {
      assert a + b == a;
    } else {
      UpsertAllInTwoGoes(es, a, b[..|b| - 1]);
      assert (a + b)[..|a + b| - 1] == a + b[..|b| - 1];
    }
  }

  // ---------------------------------------------------------------- the code, on a growable array

  /** A Go slice that owns its array: appending reuses spare room or moves to a larger array. */
  class GoSlice<T(0)> {
    var arr: array<Entry<T>>
    var len: nat

    predicate Valid()
      reads this
    {
      len <= arr.Length
    }

    function Contents(): seq<Entry<T>>
      requires Valid()
      reads this, arr
    {
      arr[..len]
    }

    constructor ()
      ensures Valid() && fresh(arr) && Contents() == []
    {
      arr := new Entry<T>[0];
      len := 0;
    }

    method Append(e: Entry<T>)
      requires Valid()
      modifies this, arr
      ensures Valid() && (arr == old(arr) || fresh(arr))
      ensures Contents() == old(Contents()) + [e]
    {
      if len == arr.Length {
        var larger := new Entry<T>[2 * len + 1];
        forall i | 0 <= i < len {
          larger[i] := arr[i];
        }
        arr := larger;
      }
      arr[len] := e;
      len := len + 1;
    }

    /** `replaceOrAppend`. */
    method ReplaceOrAppendOne(e: Entry<T>)
      requires Valid()
      modifies this, arr
      ensures Valid() && (arr == old(arr) || fresh(arr))
      ensures Contents() == Upsert(old(Contents()), e)
    {
      ghost var ks := Keys(Contents());
      for i := 0 to len
        invariant forall j :: 0 <= j < i ==> ks[j] != e.key
        invariant Valid() && arr == old(arr) && len == old(len) && Contents() == old(Contents())
      {
        if arr[i].key == e.key {
          arr[i] := e;
          FirstMatch(ks, e.key, i);
          return;
        }
      }
      NoMatch(ks, e.key);
      Append(e);
    }

    /** `ReplaceOrAppend` and `ReplaceOrAppendSystemd`. */
    method ReplaceOrAppend(add: seq<Entry<T>>)
      requires Valid()
      modifies this, arr
      ensures Valid() && (arr == old(arr) || fresh(arr))
      ensures Contents() == UpsertAll(old(Contents()), add)
    {
      for n := 0 to |add|
        invariant Valid() && (arr == old(arr) || fresh(arr))
        invariant Contents() == UpsertAll(old(Contents()), add[..n])
      {
        ghost var es := Contents();
        var found := ReplaceFirst(add[n]);
        if !found {
          Append(add[n]);
        }
        assert add[..n + 1][..n] == add[..n];
      }
      assert add[..|add|] == add;
    }

    method ReplaceFirst(e: Entry<T>) returns (found: bool)
      requires Valid()
      modifies arr
      ensures found ==> Contents() == Upsert(old(Contents()), e)
      ensures !found ==> Contents() == old(Contents()) && Upsert(Contents(), e) == Contents() + [e]
    {
      ghost var ks := Keys(Contents());
      found := false;
      for i := 0 to len
        invariant forall j :: 0 <= j < i ==> ks[j] != e.key
        invariant !found && Contents() == old(Contents())
      {
        if arr[i].key == e.key {
          arr[i] := e;
          found := true;
          FirstMatch(ks, e.key, i);
          break;
        }
      }
      if !found {
        NoMatch(ks, e.key);
      }
    }
  }

  lemma {:induction false} FirstMatch(ks: seq<string>, k: string, i: nat)
    requires i < |ks| && ks[i] == k && forall j :: 0 <= j < i ==> ks[j] != k
    ensures IndexOf(ks, k) == i
  {
    IndexOfMember(ks, k);
  }

  lemma {:induction false} NoMatch(ks: seq<string>, k: string)
    requires forall j :: 0 <= j < |ks| ==> ks[j] != k
    ensures IndexOf(ks, k) == |ks|
  {
    IndexOfMember(ks, k);
  }
}
