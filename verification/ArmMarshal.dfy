/**
 `Resource.MarshalJSON` and `_shadowCopy` of `pkg/util/arm/marshal.go`.

 A value is what reflection sees of it: a finite tree (value cycles are excluded, as they are by
 `encoding/json`).  `Json` is native marshalling without custom marshallers, `ShadowCopy` the copy
 the source makes in order to get it.  The question is when the two agree, of the copy alone and
 of the resource with the outer struct merged over it, whose fields are all exported.
 */
module ArmMarshal {
  import opened Wrappers

  datatype Json =
    | JNull
    | JText(text: string)                          // a number, a boolean or a quoted string
    | JArray(items: seq<Json>)
    | JObject(members: seq<Member>)

  datatype Member = Member(name: string, json: Json)

  /** `isZero` is Go's notion of the zero value of a boolean, number or string.  A map's entries
      stand in the order in which JSON prints its keys. */
  datatype Value =
    | Scalar(text: string, isZero: bool)
    | Uuid(text: string, isZero: bool)             // a 16-byte array that prints as a string
    | NilRef                                       // a nil pointer or interface
    | NilList                                      // a nil slice, map or byte slice
    | Bytes(base64: string)                        // a byte slice
    | Array(items: seq<Value>)
    | Slice(elems: seq<Value>)
    | Map(entries: seq<Entry>)
    | Ref(target: Value)                           // a pointer or an interface
    | Struct(fields: seq<Field>)

  datatype Entry = Entry(key: string, value: Value)

  /** The struct tag: the JSON name, which is the field's own where the tag gives none, and the
      omitempty option; or `json:"-"`. */
  datatype Tag = Skipped | Named(name: string, omitEmpty: bool, tagged: bool)

  datatype Field = Field(name: string, tag: Tag, exported: bool, value: Value)

  // ---------------------------------------------------------------- native marshalling

  /** What omitempty leaves out. */
  predicate Empty(v: Value) {
    match v
    case Scalar(_, z) => z
    case Uuid(_, _) => false
    case NilRef => true
    case NilList => true
    case Bytes(b) => b == ""
    case Array(items) => items == []
    case Slice(elems) => elems == []
    case Map(entries) => entries == []
    case Ref(_) => false
    case Struct(_) => false
  }

  predicate Printed(f: Field) {
    f.exported && f.tag.Named?
  }

  /** How many fields bear a JSON name, by their tags or as their own. */
  function Bearers(fs: seq<Field>, name: string, tagged: bool): nat {
    if fs == [] then 0
    else (if Printed(fs[0]) && fs[0].tag.name == name && fs[0].tag.tagged == tagged then 1 else 0) + Bearers(fs[1..], name, tagged)
  }

  /** Fields that share a JSON name drop out, unless one of them alone bears it by its tag. */
  predicate Wins(fs: seq<Field>, name: string, tagged: bool) {
    Bearers(fs, name, tagged) == 1 && (tagged || Bearers(fs, name, true) == 0)
  }

  /** The names, and how they are borne, that do not drop out. */
  function Winners(fs: seq<Field>): set<(string, bool)> {
    set i | 0 <= i < |fs| && Printed(fs[i]) && Wins(fs, fs[i].tag.name, fs[i].tag.tagged) :: (fs[i].tag.name, fs[i].tag.tagged)
  }

  predicate Shows(f: Field, winners: set<(string, bool)>) {
    Printed(f) && (f.tag.name, f.tag.tagged) in winners
  }

  function Native(v: Value): Json
    decreases v, 0
  {
    match v
    case Scalar(text, _) => JText(text)
    case Uuid(text, _) => JText(text)
    case NilRef => JNull
    case NilList => JNull
    case Bytes(b) => JText(b)
    case Array(items) => JArray(NativeItems(items))
    case Slice(elems) => JArray(NativeItems(elems))
    case Map(entries) => JObject(NativeEntries(entries))
    case Ref(target) => Native(target)
    case Struct(fields) => JObject(NativeFields(fields, Winners(fields)))
  }

  function NativeItems(vs: seq<Value>): (js: seq<Json>)
    ensures |js| == |vs|
    decreases vs, 0
  {
    if vs == [] then [] else [Native(vs[0])] + NativeItems(vs[1..])
  }

  function NativeEntry(e: Entry): Member
    decreases e, 1
  {
    Member(e.key, Native(e.value))
  }

  function NativeEntries(es: seq<Entry>): (js: seq<Member>)
    ensures |js| == |es|
    decreases es, 0
  {
    if es == [] then [] else [NativeEntry(es[0])] + NativeEntries(es[1..])
  }

  /** What one field prints: at most one member. */
  function NativeField(f: Field, winners: set<(string, bool)>): seq<Member>
    decreases f, 1
  {
    if !Shows(f, winners) || (f.tag.omitEmpty && Empty(f.value)) then []
    else [Member(f.tag.name, Native(f.value))]
  }

  function NativeFields(fs: seq<Field>, winners: set<(string, bool)>): seq<Member>
    decreases fs, 0
  {
    if fs == [] then [] else NativeField(fs[0], winners) + NativeFields(fs[1..], winners)
  }

  // ---------------------------------------------------------------- the shadow copy

  /** `reflect.Value.IsZero`. */
  predicate IsZero(v: Value) {
    match v
    case Scalar(_, z) => z
    case Uuid(_, z) => z
    case NilRef => true
    case NilList => true
    case Array(items) => forall i :: 0 <= i < |items| ==> IsZero(items[i])
    case Struct(fields) => forall i :: 0 <= i < |fields| ==> IsZero(fields[i].value)
    case _ => false
  }

  /** Storing a value in an interface variable: an interface is not wrapped twice, but a nil slice
      or map makes a non-nil interface. */
  function InInterface(v: Value): Value {
    if v.Ref? || v.NilRef? then v else Ref(v)
  }

  function ShadowCopy(v: Value): Value
    decreases v, 0
  {
    match v
    case Scalar(_, _) => v
    case Uuid(_, _) => v
    case Bytes(_) => v
    case Array(items) => Array(ShadowItems(items))
    case NilRef => v
    case NilList => v
    case Slice(elems) => Slice(ShadowItems(elems))
    case Map(entries) => Map(ShadowEntries(entries))
    case Ref(target) => InInterface(ShadowCopy(target))
    case Struct(fields) => Struct(ShadowFields(fields))
  }

  function ShadowItems(vs: seq<Value>): (r: seq<Value>)
    ensures |r| == |vs|
    decreases vs, 0
  {
    if vs == [] then [] else [InInterface(ShadowCopy(vs[0]))] + ShadowItems(vs[1..])
  }

  function ShadowEntry(e: Entry): Entry
    decreases e, 1
  {
    Entry(e.key, InInterface(ShadowCopy(e.value)))
  }

  function ShadowEntries(es: seq<Entry>): (r: seq<Entry>)
    ensures |r| == |es|
    decreases es, 0
  {
    if es == [] then [] else [ShadowEntry(es[0])] + ShadowEntries(es[1..])
  }

  /** The copied field has interface type; a zero copy is left as the nil interface. */
  function ShadowField(f: Field): Field
    decreases f, 1
  {
    var copy := ShadowCopy(f.value);
    f.(value := if IsZero(copy) then NilRef else InInterface(copy))
  }

  function ShadowFields(fs: seq<Field>): seq<Field>
    decreases fs, 0
  {
    if fs == [] then []
    else if !fs[0].exported then ShadowFields(fs[1..])
    else [ShadowField(fs[0])] + ShadowFields(fs[1..])
  }

  // ---------------------------------------------------------------- when the copy prints the same

  /** The copy is the nil interface: nil, or pointers to pointers to nil. */
  predicate CopiesToNil(v: Value) {
    v.NilRef? || (v.Ref? && CopiesToNil(v.target))
  }

  /** The copy is a zero value, so as a field it is left out of the copied struct. */
  predicate Vanishes(v: Value) {
    match v
    case Scalar(_, z) => z
    case Uuid(_, z) => z
    case NilRef => true
    case NilList => true
    case Array(items) => forall i :: 0 <= i < |items| ==> CopiesToNil(items[i])
    case Ref(target) => CopiesToNil(target)
    case Struct(fields) => forall i :: 0 <= i < |fields| ==> fields[i].exported ==> Vanishes(fields[i].value)
    case _ => false
  }

  /** It prints as null. */
  predicate IsNull(v: Value) {
    v.NilRef? || v.NilList? || (v.Ref? && IsNull(v.target))
  }

  /** The condition on a field that is printed at all. */
  predicate FieldFaithful(f: Field, winners: set<(string, bool)>)
    decreases f, 1
  {
    Shows(f, winners) ==>
      if Vanishes(f.value) then (if f.tag.omitEmpty then Empty(f.value) else IsNull(f.value))
      else !(f.tag.omitEmpty && Empty(f.value)) && Faithful(f.value)
  }

  predicate EntryFaithful(e: Entry)
    decreases e, 1
  {
    Faithful(e.value)
  }

  /** Every field somewhere in the value either vanishes where native marshalling would print
      nothing or null, or does not vanish and is not left out natively. */
  predicate Faithful(v: Value)
    decreases v, 0
  {
    match v
    case Array(items) => forall i :: 0 <= i < |items| ==> Faithful(items[i])
    case Slice(elems) => forall i :: 0 <= i < |elems| ==> Faithful(elems[i])
    case Map(entries) => forall i :: 0 <= i < |entries| ==> EntryFaithful(entries[i])
    case Ref(target) => Faithful(target)
    case Struct(fields) => forall i :: 0 <= i < |fields| ==> FieldFaithful(fields[i], Winners(fields))
    case _ => true
  }

  lemma {:induction false} CopyIsNilRef(v: Value)
    ensures InInterface(ShadowCopy(v)).NilRef? <==> CopiesToNil(v)
  {
    if v.Ref? { CopyIsNilRef(v.target); }
  }

  lemma {:induction false} NullPrintsNull(v: Value)
    ensures Native(v).JNull? <==> IsNull(v)
  {
    if v.Ref? { NullPrintsNull(v.target); }
  }

  lemma {:induction false} InInterfacePrintsSame(v: Value)
    ensures Native(InInterface(v)) == Native(v)
  {
  }

  lemma {:induction false} ShadowItemsAt(vs: seq<Value>, i: nat)
    requires i < |vs|
    ensures ShadowItems(vs)[i] == InInterface(ShadowCopy(vs[i]))
  {
    if i > 0 { ShadowItemsAt(vs[1..], i - 1); }
  }

  lemma {:induction false} ItemsVanish(vs: seq<Value>)
    ensures IsZero(Array(ShadowItems(vs))) <==> Vanishes(Array(vs))
  {
    forall i: nat | i < |vs|
      ensures IsZero(ShadowItems(vs)[i]) <==> CopiesToNil(vs[i])
    {
      ShadowItemsAt(vs, i);
      CopyIsNilRef(vs[i]);
    }
  }

  lemma {:induction false} ZeroCopyVanishes(v: Value)
    ensures IsZero(ShadowCopy(v)) <==> Vanishes(v)
    decreases v, 0
  {
    match v
    case Array(items) => ItemsVanish(items);
    case Ref(target) => CopyIsNilRef(target);
    case Struct(fields) => FieldsVanish(fields);
    case _ =>
  }

  predicate AllZero(fs: seq<Field>) {
    forall i :: 0 <= i < |fs| ==> IsZero(fs[i].value)
  }

  predicate AllVanish(fs: seq<Field>) {
    forall i :: 0 <= i < |fs| ==> fs[i].exported ==> Vanishes(fs[i].value)
  }

  lemma {:induction false} AllZeroCons(f: Field, fs: seq<Field>)
    ensures AllZero([f] + fs) <==> IsZero(f.value) && AllZero(fs)
  {
    var gs := [f] + fs;
    assert gs[0] == f;
    assert forall i :: 0 <= i < |fs| ==> gs[i + 1] == fs[i];
  }

  lemma {:induction false} AllVanishCons(f: Field, fs: seq<Field>)
    ensures AllVanish([f] + fs) <==> (f.exported ==> Vanishes(f.value)) && AllVanish(fs)
  {
    var gs := [f] + fs;
    assert gs[0] == f;
    assert forall i :: 0 <= i < |fs| ==> gs[i + 1] == fs[i];
  }

  lemma {:induction false} FieldsVanish(fs: seq<Field>)
    ensures AllZero(ShadowFields(fs)) <==> AllVanish(fs)
    decreases fs, 0
  {
    if fs != [] {
      FieldsVanish(fs[1..]);
      FieldVanishes(fs[0]);
      assert fs == [fs[0]] + fs[1..];
      AllVanishCons(fs[0], fs[1..]);
      if fs[0].exported {
        AllZeroCons(ShadowField(fs[0]), ShadowFields(fs[1..]));
      }
    }
  }

  lemma {:induction false} FieldVanishes(f: Field)
    ensures IsZero(ShadowField(f).value) <==> Vanishes(f.value)
    decreases f, 1
  {
    ZeroCopyVanishes(f.value);
  }

  // ---------------------------------------------------------------- which fields drop out

  /** The two lists bear the same tags. */
  ghost predicate Aligned(a: seq<Field>, b: seq<Field>) {
    |a| == |b| && forall i :: 0 <= i < |a| ==> a[i].exported == b[i].exported && a[i].tag == b[i].tag
  }

  lemma {:induction false} AlignedBearers(a: seq<Field>, b: seq<Field>, name: string, tagged: bool)
    requires Aligned(a, b)
    ensures Bearers(a, name, tagged) == Bearers(b, name, tagged)
  {
    if a != [] {
      AlignedBearers(a[1..], b[1..], name, tagged);
    }
  }

  lemma {:induction false} CopyKeepsBearers(fs: seq<Field>, name: string, tagged: bool)
    ensures Bearers(ShadowFields(fs), name, tagged) == Bearers(fs, name, tagged)
  {
    if fs != [] {
      CopyKeepsBearers(fs[1..], name, tagged);
      assert fs[0].exported ==> ShadowFields(fs)[1..] == ShadowFields(fs[1..]);
    }
  }

  lemma {:induction false} BearerIsListed(fs: seq<Field>, name: string, tagged: bool)
    requires Bearers(fs, name, tagged) > 0
    ensures exists i :: 0 <= i < |fs| && Printed(fs[i]) && fs[i].tag.name == name && fs[i].tag.tagged == tagged
  {
    if !(Printed(fs[0]) && fs[0].tag.name == name && fs[0].tag.tagged == tagged) {
      BearerIsListed(fs[1..], name, tagged);
      var i :| 0 <= i < |fs[1..]| && Printed(fs[1..][i]) && fs[1..][i].tag.name == name && fs[1..][i].tag.tagged == tagged;
      assert fs[i + 1] == fs[1..][i];
    }
  }

  lemma {:induction false} WinnersIff(fs: seq<Field>, name: string, tagged: bool)
    ensures (name, tagged) in Winners(fs) <==> Wins(fs, name, tagged)
  {
    if Wins(fs, name, tagged) {
      BearerIsListed(fs, name, tagged);
    }
  }

  lemma {:induction false} SameWinners(a: seq<Field>, b: seq<Field>)
    requires forall name, tagged :: Bearers(a, name, tagged) == Bearers(b, name, tagged)
    ensures Winners(a) == Winners(b)
  {
    forall name, tagged
      ensures (name, tagged) in Winners(a) <==> (name, tagged) in Winners(b)
    {
      WinnersIff(a, name, tagged);
      WinnersIff(b, name, tagged);
      assert Bearers(a, name, true) == Bearers(b, name, true);
    }
    forall k: (string, bool)
      ensures k in Winners(a) <==> k in Winners(b)
    {
      assert k == (k.0, k.1);
    }
  }

  /** The copy has the same fields dropped as the struct it is a copy of. */
  lemma {:induction false} CopyKeepsWinners(fs: seq<Field>)
    ensures Winners(ShadowFields(fs)) == Winners(fs)
  {
    forall name, tagged
      ensures Bearers(ShadowFields(fs), name, tagged) == Bearers(fs, name, tagged)
    {
      CopyKeepsBearers(fs, name, tagged);
    }
    SameWinners(ShadowFields(fs), fs);
  }

  /** The fields that show have different JSON names. */
  ghost predicate Apart(fs: seq<Field>, winners: set<(string, bool)>) {
    forall i, j :: 0 <= i < j < |fs| ==> Shows(fs[i], winners) && Shows(fs[j], winners) ==> fs[i].tag.name != fs[j].tag.name
  }

  lemma {:induction false} BearersOfTwo(fs: seq<Field>, i: nat, j: nat)
    requires i < j < |fs| && Printed(fs[i]) && Printed(fs[j]) && fs[i].tag.name == fs[j].tag.name
    ensures Bearers(fs, fs[i].tag.name, fs[i].tag.tagged) >= if fs[i].tag.tagged == fs[j].tag.tagged then 2 else 1
    ensures Bearers(fs, fs[i].tag.name, fs[j].tag.tagged) >= 1
  {
    OneBearer(fs[i + 1..], j - i - 1);
    BearersOfSuffix(fs, i, fs[i].tag.name, fs[j].tag.tagged);
    BearersOfSuffix(fs, i + 1, fs[i].tag.name, fs[j].tag.tagged);
    OneBearer(fs, i);
    assert fs[i..][1..] == fs[i + 1..];
  }

  lemma {:induction false} OneBearer(fs: seq<Field>, i: nat)
    requires i < |fs| && Printed(fs[i])
    ensures Bearers(fs, fs[i].tag.name, fs[i].tag.tagged) >= 1
  {
    if i > 0 {
      OneBearer(fs[1..], i - 1);
    }
  }

  lemma {:induction false} BearersOfSuffix(fs: seq<Field>, i: nat, name: string, tagged: bool)
    requires i <= |fs|
    ensures Bearers(fs[i..], name, tagged) <= Bearers(fs, name, tagged)
  {
    if i == 0 {
      assert fs[0..] == fs;
    } else {
      BearersOfSuffix(fs[1..], i - 1, name, tagged);
      assert fs[1..][i - 1..] == fs[i..];
    }
  }

  lemma {:induction false} WinnersAreApart(fs: seq<Field>)
    ensures Apart(fs, Winners(fs))
  {
    forall i: nat, j: nat | i < j < |fs| && Shows(fs[i], Winners(fs)) && Shows(fs[j], Winners(fs))
      ensures fs[i].tag.name != fs[j].tag.name
    {
      WinnersIff(fs, fs[i].tag.name, fs[i].tag.tagged);
      WinnersIff(fs, fs[j].tag.name, fs[j].tag.tagged);
      if fs[i].tag.name == fs[j].tag.name {
        BearersOfTwo(fs, i, j);
        OneBearer(fs, i);
      }
    }
  }

  // ---------------------------------------------------------------- when it does

  lemma {:induction false} FaithfulPrintsSame(v: Value)
    requires Faithful(v)
    ensures Native(ShadowCopy(v)) == Native(v)
    decreases v, 0
  {
    match v
    case Array(items) => FaithfulItemsPrintSame(items);
    case Slice(elems) => FaithfulItemsPrintSame(elems);
    case Map(entries) => FaithfulEntriesPrintSame(entries);
    case Ref(target) => FaithfulPrintsSame(target);
    case Struct(fields) =>
      CopyKeepsWinners(fields);
      FaithfulFieldsPrintSame(fields, Winners(fields));
    case _ =>
  }

  lemma {:induction false} FaithfulItemsPrintSame(vs: seq<Value>)
    requires forall i :: 0 <= i < |vs| ==> Faithful(vs[i])
    ensures NativeItems(ShadowItems(vs)) == NativeItems(vs)
    decreases vs, 0
  {
    if vs != [] {
      FaithfulPrintsSame(vs[0]);
      FaithfulItemsPrintSame(vs[1..]);
    }
  }

  lemma {:induction false} FaithfulEntriesPrintSame(es: seq<Entry>)
    requires forall i :: 0 <= i < |es| ==> EntryFaithful(es[i])
    ensures NativeEntries(ShadowEntries(es)) == NativeEntries(es)
    decreases es, 0
  {
    if es != [] {
      FaithfulEntryPrintsSame(es[0]);
      FaithfulEntriesPrintSame(es[1..]);
    }
  }

  lemma {:induction false} FaithfulEntryPrintsSame(e: Entry)
    requires EntryFaithful(e)
    ensures NativeEntry(ShadowEntry(e)) == NativeEntry(e)
    decreases e, 1
  {
    FaithfulPrintsSame(e.value);
  }

  lemma {:induction false} FaithfulFieldPrintsSame(f: Field, winners: set<(string, bool)>)
    requires f.exported && FieldFaithful(f, winners)
    ensures NativeField(ShadowField(f), winners) == NativeField(f, winners)
    decreases f, 1
  {
    FieldVanishes(f);
    if Shows(f, winners) {
      if Vanishes(f.value) {
        NullPrintsNull(f.value);
      } else {
        FaithfulPrintsSame(f.value);
      }
    }
  }

  lemma {:induction false} FaithfulFieldsPrintSame(fs: seq<Field>, winners: set<(string, bool)>)
    requires forall i :: 0 <= i < |fs| ==> FieldFaithful(fs[i], winners)
    ensures NativeFields(ShadowFields(fs), winners) == NativeFields(fs, winners)
    decreases fs, 0
  {
    if fs != [] {
      FaithfulFieldsPrintSame(fs[1..], winners);
      if fs[0].exported {
        FaithfulFieldPrintsSame(fs[0], winners);
        assert ([ShadowField(fs[0])] + ShadowFields(fs[1..]))[1..] == ShadowFields(fs[1..]);
      }
    }
  }

  // ---------------------------------------------------------------- and when it does not

  lemma {:induction false} SamePrintIsFaithful(v: Value)
    requires Native(ShadowCopy(v)) == Native(v)
    ensures Faithful(v)
    decreases v, 0
  {
    match v
    case Array(items) => SameItemsAreFaithful(items);
    case Slice(elems) => SameItemsAreFaithful(elems);
    case Map(entries) => SameEntriesAreFaithful(entries);
    case Ref(target) => SamePrintIsFaithful(target);
    case Struct(fields) =>
      CopyKeepsWinners(fields);
      WinnersAreApart(fields);
      SameFieldsAreFaithful(fields, Winners(fields));
    case _ =>
  }

  lemma {:induction false} SameItemsAreFaithful(vs: seq<Value>)
    requires NativeItems(ShadowItems(vs)) == NativeItems(vs)
    ensures forall i :: 0 <= i < |vs| ==> Faithful(vs[i])
    decreases vs, 0
  {
    if vs != [] {
      var a, b := NativeItems(ShadowItems(vs)), NativeItems(vs);
      assert a[0] == b[0] && a[1..] == b[1..];
      assert ShadowItems(vs)[1..] == ShadowItems(vs[1..]);
      SamePrintIsFaithful(vs[0]);
      SameItemsAreFaithful(vs[1..]);
      assert forall i :: 1 <= i < |vs| ==> vs[i] == vs[1..][i - 1];
    }
  }

  lemma {:induction false} SameEntriesAreFaithful(es: seq<Entry>)
    requires NativeEntries(ShadowEntries(es)) == NativeEntries(es)
    ensures forall i :: 0 <= i < |es| ==> EntryFaithful(es[i])
    decreases es, 0
  {
    if es != [] {
      var a, b := NativeEntries(ShadowEntries(es)), NativeEntries(es);
      assert a[0] == b[0] && a[1..] == b[1..];
      assert ShadowEntries(es)[1..] == ShadowEntries(es[1..]);
      SameEntryIsFaithful(es[0]);
      SameEntriesAreFaithful(es[1..]);
      assert forall i :: 1 <= i < |es| ==> es[i] == es[1..][i - 1];
    }
  }

  lemma {:induction false} SameEntryIsFaithful(e: Entry)
    requires NativeEntry(ShadowEntry(e)) == NativeEntry(e)
    ensures EntryFaithful(e)
    decreases e, 1
  {
    SamePrintIsFaithful(e.value);
  }

  lemma {:induction false} SameFieldIsFaithful(f: Field, winners: set<(string, bool)>)
    requires f.exported && NativeField(ShadowField(f), winners) == NativeField(f, winners)
    ensures FieldFaithful(f, winners)
    decreases f, 1
  {
    FieldVanishes(f);
    if Shows(f, winners) {
      var a, b := NativeField(ShadowField(f), winners), NativeField(f, winners);
      assert |a| == |b|;
      if a != [] { assert a[0] == b[0]; }
      if Vanishes(f.value) {
        NullPrintsNull(f.value);
      } else {
        SamePrintIsFaithful(f.value);
      }
    }
  }

  lemma {:induction false} SameFieldsAreFaithful(fs: seq<Field>, winners: set<(string, bool)>)
    requires Apart(fs, winners)
    requires NativeFields(ShadowFields(fs), winners) == NativeFields(fs, winners)
    ensures forall i :: 0 <= i < |fs| ==> FieldFaithful(fs[i], winners)
    decreases fs, 0
  {
    if fs != [] {
      assert Apart(fs[1..], winners) by { assert forall i :: 0 <= i < |fs[1..]| ==> fs[1..][i] == fs[i + 1]; }
      if fs[0].exported {
        assert ShadowFields(fs)[1..] == ShadowFields(fs[1..]);
        CopyKeepsShownNames(fs[1..], winners);
        HeadsPrintSame(ShadowField(fs[0]), ShadowFields(fs[1..]), fs[0], fs[1..], winners);
        SameFieldIsFaithful(fs[0], winners);
      }
      SameFieldsAreFaithful(fs[1..], winners);
      assert forall i :: 1 <= i < |fs| ==> fs[i] == fs[1..][i - 1];
    }
  }

  /** Some field that shows has this JSON name. */
  ghost predicate NamesAField(fs: seq<Field>, winners: set<(string, bool)>, name: string) {
    exists i :: 0 <= i < |fs| && Shows(fs[i], winners) && fs[i].tag.name == name
  }

  lemma {:induction false} NamesALaterField(fs: seq<Field>, winners: set<(string, bool)>, name: string)
    requires fs != [] && NamesAField(fs[1..], winners, name)
    ensures NamesAField(fs, winners, name)
  {
    var i :| 0 <= i < |fs[1..]| && Shows(fs[1..][i], winners) && fs[1..][i].tag.name == name;
    assert fs[i + 1] == fs[1..][i];
  }

  lemma {:induction false} MemberNames(fs: seq<Field>, winners: set<(string, bool)>, m: Member)
    requires m in NativeFields(fs, winners)
    ensures NamesAField(fs, winners, m.name)
  {
    if m in NativeFields(fs[1..], winners) {
      MemberNames(fs[1..], winners, m);
      NamesALaterField(fs, winners, m.name);
    }
  }

  lemma {:induction false} CopyKeepsShownNames(fs: seq<Field>, winners: set<(string, bool)>)
    ensures forall name :: NamesAField(ShadowFields(fs), winners, name) ==> NamesAField(fs, winners, name)
  {
    if fs != [] {
      CopyKeepsShownNames(fs[1..], winners);
      forall name | NamesAField(ShadowFields(fs), winners, name)
        ensures NamesAField(fs, winners, name)
      {
        var i :| 0 <= i < |ShadowFields(fs)| && Shows(ShadowFields(fs)[i], winners) && ShadowFields(fs)[i].tag.name == name;
        if fs[0].exported && i == 0 {
          assert Shows(fs[0], winners) && fs[0].tag.name == name;
        } else {
          var k := if fs[0].exported then i - 1 else i;
          assert ShadowFields(fs[1..])[k] == ShadowFields(fs)[i];
          assert NamesAField(fs[1..], winners, name);
          NamesALaterField(fs, winners, name);
        }
      }
    }
  }

  /** If two lists print the same and their first fields have one tag, the first fields print the
      same, and so do the rests: a member that one first field alone prints cannot be made up for by
      a later field, which has another name. */
  lemma {:induction false} HeadsPrintSame(f: Field, fs: seq<Field>, g: Field, gs: seq<Field>, winners: set<(string, bool)>)
    requires f.exported == g.exported && f.tag == g.tag
    requires Shows(g, winners) ==> !NamesAField(fs, winners, g.tag.name) && !NamesAField(gs, winners, g.tag.name)
    requires NativeField(f, winners) + NativeFields(fs, winners) == NativeField(g, winners) + NativeFields(gs, winners)
    ensures NativeField(f, winners) == NativeField(g, winners)
    ensures NativeFields(fs, winners) == NativeFields(gs, winners)
  {
    var a, b := NativeField(f, winners), NativeField(g, winners);
    var restA, restB := NativeFields(fs, winners), NativeFields(gs, winners);
    if |a| < |b| {
      assert (b + restB)[0] == b[0] == (a + restA)[0] == restA[0];
      MemberNames(fs, winners, b[0]);
    } else if |b| < |a| {
      assert (a + restA)[0] == a[0] == (b + restB)[0] == restB[0];
      MemberNames(gs, winners, a[0]);
    }
    assert (a + restA)[..|a|] == a && (b + restB)[..|b|] == b;
    assert (a + restA)[|a|..] == restA && (b + restB)[|b|..] == restB;
  }

  /** For every value: the copy prints as the value does natively if and only if the value is faithful. */
  lemma {:induction false} CopyPrintsSameIffFaithful(v: Value)
    ensures Native(ShadowCopy(v)) == Native(v) <==> Faithful(v)
  {
    if Faithful(v) {
      FaithfulPrintsSame(v);
    } else if Native(ShadowCopy(v)) == Native(v) {
      SamePrintIsFaithful(v);
    }
  }

  lemma {:induction false} BearersOfOne(f: Field, name: string, tagged: bool)
    ensures Bearers([f], name, tagged) == if Printed(f) && f.tag.name == name && f.tag.tagged == tagged then 1 else 0
  {
    assert Bearers([f][1..], name, tagged) == 0;
  }

  lemma {:induction false} OneFieldStruct(f: Field)
    requires Printed(f)
    ensures Shows(f, Winners([f]))
    ensures Native(Struct([f])) == JObject(NativeField(f, Winners([f])))
    ensures Native(ShadowCopy(Struct([f]))) == JObject(NativeField(ShadowField(f), Winners([f])))
  {
    BearersOfOne(f, f.tag.name, f.tag.tagged);
    BearersOfOne(f, f.tag.name, true);
    WinnersIff([f], f.tag.name, f.tag.tagged);
    CopyKeepsWinners([f]);
    assert ShadowFields([f]) == [ShadowField(f)] by { assert ShadowFields([f]) == [ShadowField(f)] + ShadowFields([]); }
    OneFieldPrints(f, Winners([f]));
    OneFieldPrints(ShadowField(f), Winners([f]));
  }

  lemma {:induction false} OneFieldPrints(f: Field, winners: set<(string, bool)>)
    ensures NativeFields([f], winners) == NativeField(f, winners)
  {
    assert [f][1..] == [];
    assert NativeField(f, winners) + NativeFields([], winners) == NativeField(f, winners);
  }

  /** A zero number that is not omitempty becomes null. */
  lemma {:induction false} ZeroBecomesNull(name: string, text: string)
    ensures var v := Struct([Field(name, Named(name, false, true), true, Scalar(text, true))]);
            && Native(v) == JObject([Member(name, JText(text))])
            && Native(ShadowCopy(v)) == JObject([Member(name, JNull)])
  {
    OneFieldStruct(Field(name, Named(name, false, true), true, Scalar(text, true)));
  }

  /** An empty list under omitempty appears. */
  lemma {:induction false} EmptyListAppears(name: string)
    ensures var v := Struct([Field(name, Named(name, true, true), true, Slice([]))]);
            && Native(v) == JObject([])
            && Native(ShadowCopy(v)) == JObject([Member(name, JArray([]))])
  {
    OneFieldStruct(Field(name, Named(name, true, true), true, Slice([])));
  }

  /** An array of nil pointers under omitempty goes missing. */
  lemma {:induction false} ArrayOfNilsGoesMissing(name: string)
    ensures var v := Struct([Field(name, Named(name, true, true), true, Array([NilRef]))]);
            && Native(v) == JObject([Member(name, JArray([JNull]))])
            && Native(ShadowCopy(v)) == JObject([])
  {
    var f := Field(name, Named(name, true, true), true, Array([NilRef]));
    OneFieldStruct(f);
    FieldVanishes(f);
    assert Vanishes(f.value);
    assert ShadowField(f).value == NilRef by { ZeroCopyVanishes(f.value); }
    assert NativeItems([NilRef]) == [JNull] by { assert [NilRef][1..] == []; }
  }

  // ---------------------------------------------------------------- merging the outer resource over it

  function Names(fs: seq<Field>): (ns: seq<string>)
    ensures |ns| == |fs| && forall i :: 0 <= i < |fs| ==> ns[i] == fs[i].name
  {
    seq(|fs|, i requires 0 <= i < |fs| => fs[i].name)
  }

  /** Go struct fields have distinct names. */
  ghost predicate DistinctFields(fs: seq<Field>) {
    forall i, j :: 0 <= i < j < |fs| ==> fs[i].name != fs[j].name
  }

  function Find(fs: seq<Field>, name: string): Option<Field> {
    if fs == [] then None
    else if fs[0].name == name then Some(fs[0])
    else Find(fs[1..], name)
  }

  /** The outer field's tag; its value too unless that is zero. */
  function Override(inner: Field, outer: Field): Field {
    outer.(value := if IsZero(outer.value) then inner.value else InInterface(outer.value))
  }

  function OverrideFrom(f: Field, outer: seq<Field>): Field {
    match Find(outer, f.name)
    case None => f
    case Some(o) => Override(f, o)
  }

  function OverrideAll(inner: seq<Field>, outer: seq<Field>): (r: seq<Field>)
    ensures |r| == |inner| && forall i :: 0 <= i < |inner| ==> r[i] == OverrideFrom(inner[i], outer)
  {
    seq(|inner|, i requires 0 <= i < |inner| => OverrideFrom(inner[i], outer))
  }

  /** The outer fields the inner struct does not have, in order. */
  function NewFields(inner: seq<Field>, outer: seq<Field>): (r: seq<Field>)
    ensures |r| <= |outer|
  {
    if outer == [] then []
    else
      var r := NewFields(inner, outer[..|outer| - 1]);
      var o := outer[|outer| - 1];
      if Find(inner, o.name).None? then r + [o] else r
  }

  /** Inner fields keep their places, overridden where the outer struct has a field of the name;
      the outer struct's other fields follow. */
  function Merged(inner: seq<Field>, outer: seq<Field>): seq<Field> {
    OverrideAll(inner, outer) + NewFields(inner, outer)
  }

  lemma {:induction false} FindSucceedsIff(fs: seq<Field>, name: string)
    ensures Find(fs, name).Some? <==> exists i :: 0 <= i < |fs| && fs[i].name == name
    ensures Find(fs, name).Some? ==> Find(fs, name).value.name == name
  {
    if fs != [] && fs[0].name != name {
      FindSucceedsIff(fs[1..], name);
      if i :| 0 <= i < |fs| && fs[i].name == name {
        assert fs[1..][i - 1] == fs[i];
      }
    }
  }

  lemma {:induction false} FindAppend(a: seq<Field>, b: seq<Field>, name: string)
    ensures Find(a + b, name) == if Find(a, name).Some? then Find(a, name) else Find(b, name)
  {
    if a == [] {
      assert a + b == b;
    } else if a[0].name != name {
      FindAppend(a[1..], b, name);
      assert (a + b)[1..] == a[1..] + b;
    }
  }

  lemma {:induction false} FindOverridden(inner: seq<Field>, outer: seq<Field>, name: string)
    ensures Find(OverrideAll(inner, outer), name)
         == if Find(inner, name).Some? then Some(OverrideFrom(Find(inner, name).value, outer)) else None
  {
    if inner != [] {
      FindSucceedsIff(outer, inner[0].name);
      FindOverridden(inner[1..], outer, name);
      assert OverrideAll(inner, outer)[1..] == OverrideAll(inner[1..], outer);
    }
  }

  lemma {:induction false} FindNew(inner: seq<Field>, outer: seq<Field>, name: string)
    ensures Find(NewFields(inner, outer), name) == if Find(inner, name).None? then Find(outer, name) else None
  {
    if outer != [] {
      var init, o := outer[..|outer| - 1], outer[|outer| - 1];
      FindNew(inner, init, name);
      FindAppend(NewFields(inner, init), [o], name);
      FindAppend(init, [o], name);
      assert init + [o] == outer;
      assert Find([o], name) == if o.name == name then Some(o) else None;
    }
  }

  /** The merge as a map from names: the outer field where there is one, with the inner value
      behind it when the outer value is zero; and otherwise the inner field. */
  lemma {:induction false} MergeIsOverride(inner: seq<Field>, outer: seq<Field>, name: string)
    ensures Find(Merged(inner, outer), name)
         == match (Find(inner, name), Find(outer, name))
            case (None, None) => None
            case (Some(f), None) => Some(f)
            case (None, Some(o)) => Some(o)
            case (Some(f), Some(o)) => Some(o.(value := if IsZero(o.value) then f.value else InInterface(o.value)))
  {
    FindAppend(OverrideAll(inner, outer), NewFields(inner, outer), name);
    FindOverridden(inner, outer, name);
    FindNew(inner, outer, name);
    FindSucceedsIff(inner, name);
  }

  lemma {:induction false} NewFieldsAreNew(inner: seq<Field>, outer: seq<Field>)
    requires DistinctFields(outer)
    ensures DistinctFields(NewFields(inner, outer))
    ensures forall i :: 0 <= i < |NewFields(inner, outer)| ==>
              Find(inner, NewFields(inner, outer)[i].name).None? && NewFields(inner, outer)[i] in outer
  {
    if outer != [] {
      NewFieldsAreNew(inner, outer[..|outer| - 1]);
    }
  }

  /** Each inner field stays where it is, and the outer fields it has no name for follow in their order. */
  lemma {:induction false} MergeKeepsOrder(inner: seq<Field>, outer: seq<Field>)
    ensures |Merged(inner, outer)| >= |inner|
    ensures forall i :: 0 <= i < |inner| ==> Merged(inner, outer)[i].name == inner[i].name
    ensures Merged(inner, outer)[|inner|..] == NewFields(inner, outer)
  {
    OverriddenNames(inner, outer);
  }

  /** Filtering one part after the other is filtering the whole. */
  lemma {:induction false} NewFieldsAppend(inner: seq<Field>, a: seq<Field>, b: seq<Field>)
    ensures NewFields(inner, a + b) == NewFields(inner, a) + NewFields(inner, b)
    ensures |b| == 1 ==> NewFields(inner, b) == if exists i :: 0 <= i < |inner| && inner[i].name == b[0].name then [] else b
  {
    if b == [] {
      assert a + b == a;
    } else {
      assert (a + b)[..|a + b| - 1] == a + b[..|b| - 1];
      NewFieldsAppend(inner, a, b[..|b| - 1]);
      FindSucceedsIff(inner, b[|b| - 1].name);
    }
  }

  /** The merged struct is a proper struct: no field name occurs twice. */
  lemma {:induction false} MergeKeepsNamesDistinct(inner: seq<Field>, outer: seq<Field>)
    requires DistinctFields(inner) && DistinctFields(outer)
    ensures DistinctFields(Merged(inner, outer))
  {
    NewFieldsAreNew(inner, outer);
    var r := Merged(inner, outer);
    forall i | 0 <= i < |inner|
      ensures r[i].name == inner[i].name
    {
      FindSucceedsIff(outer, inner[i].name);
    }
    forall i, j | 0 <= i < j < |r|
      ensures r[i].name != r[j].name
    {
      if i < |inner| && j >= |inner| {
        FindSucceedsIff(inner, r[j].name);
      }
    }
  }

  // ---------------------------------------------------------------- the two loops

  /** The name index points at each field's own place, and knows no other name. */
  ghost predicate Indexes(index: map<string, nat>, fs: seq<Field>) {
    && (forall i :: 0 <= i < |fs| ==> fs[i].name in index && index[fs[i].name] == i)
    && (forall n :: n in index ==> index[n] < |fs| && fs[index[n]].name == n)
  }

  lemma {:induction false} IndexExtends(index: map<string, nat>, fs: seq<Field>, f: Field)
    requires Indexes(index, fs) && f.name !in index
    ensures Indexes(index[f.name := |fs|], fs + [f])
  {
    var index', fs' := index[f.name := |fs|], fs + [f];
    forall i | 0 <= i < |fs'|
      ensures fs'[i].name in index' && index'[fs'[i].name] == i
    {
      assert i < |fs| ==> fs[i].name in index;
    }
  }

  lemma {:induction false} NotYetIndexed(inner: seq<Field>, i: nat, index: map<string, nat>)
    requires i < |inner| && DistinctFields(inner) && Indexes(index, inner[..i])
    ensures inner[i].name !in index
  {
  }

  lemma {:induction false} IndexStays(index: map<string, nat>, fs: seq<Field>, j: nat, f: Field)
    requires Indexes(index, fs) && j < |fs| && f.name == fs[j].name
    ensures Indexes(index, fs[j := f])
  {
  }

  /** The first loop. */
  method CopyAndIndex(inner: seq<Field>) returns (fields: seq<Field>, index: map<string, nat>)
    requires DistinctFields(inner)
    ensures fields == inner && Indexes(index, fields)
  {
    fields, index := [], map[];
    for i := 0 to |inner|
      invariant fields == inner[..i] && Indexes(index, fields)
    {
      NotYetIndexed(inner, i, index);
      IndexExtends(index, fields, inner[i]);
      fields := fields + [inner[i]];
      index := index[inner[i].name := i];
    }
  }

  method Merge(inner: seq<Field>, outer: seq<Field>) returns (fields: seq<Field>)
    requires DistinctFields(inner) && DistinctFields(outer)
    ensures fields == Merged(inner, outer)
  {
    var index: map<string, nat>;
    fields, index := CopyAndIndex(inner);
    assert OverrideAll(inner, []) == inner;
    assert outer[..0] == [];
    for i := 0 to |outer|
      invariant fields == Merged(inner, outer[..i]) && Indexes(index, fields)
    {
      MergeOne(inner, outer, i, fields, index);
      fields, index := OverrideOrAppend(fields, index, outer[i]);
    }
    assert outer[..|outer|] == outer;
  }

  /** The second loop's step. */
  method OverrideOrAppend(fields: seq<Field>, index: map<string, nat>, field: Field)
      returns (fields': seq<Field>, index': map<string, nat>)
    requires Indexes(index, fields)
    ensures Indexes(index', fields')
    ensures fields' == if field.name in index then fields[index[field.name] := Override(fields[index[field.name]], field)]
                       else fields + [field]
  {
    if field.name in index {
      var j := index[field.name];
      IndexStays(index, fields, j, Override(fields[j], field));
      index' := index;
      if !IsZero(field.value) {
        fields' := fields[j := field.(value := InInterface(field.value))];
      } else {
        fields' := fields[j := field.(value := fields[j].value)];
      }
    } else {
      IndexExtends(index, fields, field);
      fields' := fields + [field];
      index' := index[field.name := |fields|];
    }
  }

  lemma {:induction false} FindSnoc(outer: seq<Field>, i: nat, name: string)
    requires i < |outer| && DistinctFields(outer)
    ensures Find(outer[..i + 1], name) == if outer[i].name == name then Some(outer[i]) else Find(outer[..i], name)
  {
    assert outer[..i + 1] == outer[..i] + [outer[i]];
    FindAppend(outer[..i], [outer[i]], name);
    assert Find([outer[i]], name) == if outer[i].name == name then Some(outer[i]) else None;
    FindSucceedsIff(outer[..i], name);
  }

  lemma {:induction false} OverriddenNames(inner: seq<Field>, outer: seq<Field>)
    ensures forall k :: 0 <= k < |inner| ==> OverrideAll(inner, outer)[k].name == inner[k].name
  {
    forall k | 0 <= k < |inner|
      ensures OverrideAll(inner, outer)[k].name == inner[k].name
    {
      FindSucceedsIff(outer, inner[k].name);
    }
  }

  /** A field the merge added bears the name of an earlier outer field, not of the next one. */
  lemma {:induction false} NewNamesDiffer(inner: seq<Field>, outer: seq<Field>, i: nat)
    requires i < |outer| && DistinctFields(outer)
    ensures forall x :: 0 <= x < |NewFields(inner, outer[..i])| ==> NewFields(inner, outer[..i])[x].name != outer[i].name
  {
    var added := NewFields(inner, outer[..i]);
    NewFieldsAreNew(inner, outer[..i]);
    forall x | 0 <= x < |added|
      ensures added[x].name != outer[i].name
    {
      var k :| 0 <= k < |outer[..i]| && outer[..i][k] == added[x];
      assert outer[k].name != outer[i].name;
    }
  }

  lemma {:induction false} MergeOne(inner: seq<Field>, outer: seq<Field>, i: nat, fields: seq<Field>, index: map<string, nat>)
    requires i < |outer| && DistinctFields(inner) && DistinctFields(outer)
    requires fields == Merged(inner, outer[..i]) && Indexes(index, fields)
    ensures var o := outer[i];
            if o.name in index then
              && index[o.name] < |inner|
              && Merged(inner, outer[..i + 1]) == fields[index[o.name] := Override(fields[index[o.name]], o)]
            else Merged(inner, outer[..i + 1]) == fields + [o]
  {
    var o := outer[i];
    assert outer[..i + 1][..i] == outer[..i];
    FindSucceedsIff(inner, o.name);
    OverriddenNames(inner, outer[..i]);
    if o.name in index {
      NewNamesDiffer(inner, outer, i);
      MergeOverride(inner, outer, i, index[o.name]);
    } else {
      forall k: nat | k < |inner|
        ensures inner[k].name != o.name
      {
        assert fields[k].name in index;
      }
      OverrideUnaffected(inner, outer, i);
    }
  }

  lemma {:induction false} OverrideUnaffected(inner: seq<Field>, outer: seq<Field>, i: nat)
    requires i < |outer| && DistinctFields(outer)
    requires forall k :: 0 <= k < |inner| ==> inner[k].name != outer[i].name
    ensures OverrideAll(inner, outer[..i + 1]) == OverrideAll(inner, outer[..i])
  {
    forall k: nat | k < |inner|
      ensures OverrideFrom(inner[k], outer[..i + 1]) == OverrideFrom(inner[k], outer[..i])
    {
      FindSnoc(outer, i, inner[k].name);
    }
  }

  lemma {:induction false} MergeOverride(inner: seq<Field>, outer: seq<Field>, i: nat, j: nat)
    requires i < |outer| && DistinctFields(inner) && DistinctFields(outer)
    requires j < |inner| && inner[j].name == outer[i].name
    ensures OverrideAll(inner, outer[..i + 1])
         == OverrideAll(inner, outer[..i])[j := Override(OverrideAll(inner, outer[..i])[j], outer[i])]
  {
    forall k: nat | k < |inner|
      ensures OverrideFrom(inner[k], outer[..i + 1])
           == if k == j then Override(OverrideFrom(inner[k], outer[..i]), outer[i]) else OverrideFrom(inner[k], outer[..i])
    {
      FindSnoc(outer, i, inner[k].name);
      FindSucceedsIff(outer[..i], inner[k].name);
    }
  }

  // ---------------------------------------------------------------- the resource as JSON

  /** `r.Resource` may be a struct or a pointer to one; anything else is an error. */
  function Fields(v: Value): Option<seq<Field>> {
    match v
    case Struct(fields) => Some(fields)
    case Ref(Struct(fields)) => Some(fields)
    case _ => None
  }

  // ---------------------------------------------------------------- what the resource prints

  function Exported(fs: seq<Field>): (r: seq<Field>)
    ensures forall i :: 0 <= i < |r| ==> r[i].exported
  {
    if fs == [] then [] else (if fs[0].exported then [fs[0]] else []) + Exported(fs[1..])
  }

  /** A field of the resource with the outer resource over it: the outer field where that is not
      zero, and the field's own value under the outer tag where it is. */
  function Under(f: Field, outer: seq<Field>): Field {
    match Find(outer, f.name)
    case None => f
    case Some(o) => if IsZero(o.value) then f.(tag := o.tag) else o
  }

  function AllUnder(fs: seq<Field>, outer: seq<Field>): (r: seq<Field>)
    ensures |r| == |fs| && forall i :: 0 <= i < |fs| ==> r[i] == Under(fs[i], outer)
  {
    seq(|fs|, i requires 0 <= i < |fs| => Under(fs[i], outer))
  }

  /** The struct that `MarshalJSON` is to print, made of the resource itself instead of its copy:
      its exported fields with the outer resource over them, and the other outer fields. */
  function Intended(fs: seq<Field>, outer: seq<Field>): seq<Field> {
    AllUnder(Exported(fs), outer) + NewFields(Exported(fs), outer)
  }

  /** The condition on one field of the resource: its own value must be faithful under the tag it
      is printed with; an outer value that is not zero must not be an empty list under omitempty. */
  predicate FieldFaithfulUnder(f: Field, outer: seq<Field>, winners: set<(string, bool)>) {
    var g := Under(f, outer);
    if Find(outer, f.name).None? || IsZero(Find(outer, f.name).value.value) then FieldFaithful(g, winners)
    else Shows(g, winners) ==> !(g.tag.omitEmpty && Empty(g.value))
  }

  predicate FaithfulUnder(fs: seq<Field>, outer: seq<Field>) {
    forall i :: 0 <= i < |Exported(fs)| ==> FieldFaithfulUnder(Exported(fs)[i], outer, Winners(Intended(fs, outer)))
  }

  lemma {:induction false} ShadowIsOfExported(fs: seq<Field>)
    ensures |ShadowFields(fs)| == |Exported(fs)|
    ensures forall i :: 0 <= i < |Exported(fs)| ==> ShadowFields(fs)[i] == ShadowField(Exported(fs)[i])
  {
    if fs != [] {
      ShadowIsOfExported(fs[1..]);
    }
  }

  lemma {:induction false} NewFieldsByName(a: seq<Field>, b: seq<Field>, outer: seq<Field>)
    requires |a| == |b| && forall i :: 0 <= i < |a| ==> a[i].name == b[i].name
    ensures NewFields(a, outer) == NewFields(b, outer)
  {
    if outer != [] {
      NewFieldsByName(a, b, outer[..|outer| - 1]);
      FindSucceedsIff(a, outer[|outer| - 1].name);
      FindSucceedsIff(b, outer[|outer| - 1].name);
    }
  }

  ghost predicate AllExported(fs: seq<Field>) {
    forall i :: 0 <= i < |fs| ==> fs[i].exported
  }

  lemma {:induction false} FindIsMember(fs: seq<Field>, name: string)
    requires Find(fs, name).Some?
    ensures exists j :: 0 <= j < |fs| && fs[j] == Find(fs, name).value && fs[j].name == name
  {
    if fs[0].name != name {
      FindIsMember(fs[1..], name);
      var j :| 0 <= j < |fs[1..]| && fs[1..][j] == Find(fs, name).value && fs[1..][j].name == name;
      assert fs[j + 1] == fs[1..][j];
    } else {
      assert fs[0] == Find(fs, name).value;
    }
  }

  /** One field, copied and overridden, is printed as intended exactly under its condition. */
  lemma {:induction false} FieldPrintsIff(f: Field, outer: seq<Field>, winners: set<(string, bool)>)
    requires f.exported && AllExported(outer)
    ensures var c, g := OverrideFrom(ShadowField(f), outer), Under(f, outer);
            && c.exported && g.exported && c.tag == g.tag
            && (NativeField(c, winners) == NativeField(g, winners) <==> FieldFaithfulUnder(f, outer, winners))
  {
    var c, g := OverrideFrom(ShadowField(f), outer), Under(f, outer);
    match Find(outer, f.name)
    case None => OwnFieldPrintsIff(f, winners);
    case Some(o) =>
      FindIsMember(outer, f.name);
      if IsZero(o.value) {
        OwnFieldPrintsIff(g, winners);
        assert c.value == ShadowField(g).value && c.tag == ShadowField(g).tag;
        assert NativeField(c, winners) == NativeField(ShadowField(g), winners);
      } else {
        InInterfacePrintsSame(o.value);
      }
  }

  lemma {:induction false} OwnFieldPrintsIff(f: Field, winners: set<(string, bool)>)
    requires f.exported
    ensures NativeField(ShadowField(f), winners) == NativeField(f, winners) <==> FieldFaithful(f, winners)
  {
    if FieldFaithful(f, winners) {
      FaithfulFieldPrintsSame(f, winners);
    } else if NativeField(ShadowField(f), winners) == NativeField(f, winners) {
      SameFieldIsFaithful(f, winners);
    }
  }

  lemma {:induction false} AlignedNames(a: seq<Field>, b: seq<Field>, winners: set<(string, bool)>, name: string)
    requires Aligned(a, b) && NamesAField(a, winners, name)
    ensures NamesAField(b, winners, name)
  {
    var i :| 0 <= i < |a| && Shows(a[i], winners) && a[i].tag.name == name;
    assert Shows(b[i], winners) && b[i].tag.name == name;
  }

  /** Lists with the same tags print the same exactly if each field prints the same. */
  lemma {:induction false} AlignedPrintSameIff(a: seq<Field>, b: seq<Field>, winners: set<(string, bool)>)
    requires Aligned(a, b) && Apart(b, winners)
    ensures NativeFields(a, winners) == NativeFields(b, winners) <==>
            forall i :: 0 <= i < |a| ==> NativeField(a[i], winners) == NativeField(b[i], winners)
  {
    if a != [] {
      assert forall i :: 0 <= i < |b[1..]| ==> b[1..][i] == b[i + 1] && a[1..][i] == a[i + 1];
      AlignedPrintSameIff(a[1..], b[1..], winners);
      if NativeFields(a, winners) == NativeFields(b, winners) {
        if Shows(b[0], winners) && NamesAField(a[1..], winners, b[0].tag.name) {
          AlignedNames(a[1..], b[1..], winners, b[0].tag.name);
        }
        HeadsPrintSame(a[0], a[1..], b[0], b[1..], winners);
        assert forall i :: 1 <= i < |a| ==> a[i] == a[1..][i - 1] && b[i] == b[1..][i - 1];
      }
    }
  }

  lemma {:induction false} AlignedWinners(a: seq<Field>, b: seq<Field>)
    requires Aligned(a, b)
    ensures Winners(a) == Winners(b)
  {
    forall name, tagged
      ensures Bearers(a, name, tagged) == Bearers(b, name, tagged)
    {
      AlignedBearers(a, b, name, tagged);
    }
    SameWinners(a, b);
  }

  lemma {:induction false} StructsPrintSameIff(a: seq<Field>, b: seq<Field>)
    requires Aligned(a, b)
    ensures Native(Struct(a)) == Native(Struct(b)) <==>
            forall i :: 0 <= i < |a| ==> NativeField(a[i], Winners(b)) == NativeField(b[i], Winners(b))
  {
    AlignedWinners(a, b);
    WinnersAreApart(b);
    AlignedPrintSameIff(a, b, Winners(b));
  }

  /** The merged struct beside the intended one: the same fields with the same tags, and field by
      field the condition for printing the same. */
  lemma {:induction false} MergedBesideIntended(fs: seq<Field>, outer: seq<Field>, winners: set<(string, bool)>)
    requires AllExported(outer)
    ensures var a, b := Merged(ShadowFields(fs), outer), Intended(fs, outer);
            && |Exported(fs)| <= |a|
            && Aligned(a, b)
            && (forall i :: 0 <= i < |Exported(fs)| ==>
                  (NativeField(a[i], winners) == NativeField(b[i], winners) <==>
                   FieldFaithfulUnder(Exported(fs)[i], outer, winners)))
            && (forall i :: |Exported(fs)| <= i < |a| ==> a[i] == b[i])
  {
    var a, b := Merged(ShadowFields(fs), outer), Intended(fs, outer);
    ShadowIsOfExported(fs);
    NewFieldsByName(ShadowFields(fs), Exported(fs), outer);
    forall i | 0 <= i < |Exported(fs)|
      ensures a[i].exported && b[i].exported && a[i].tag == b[i].tag
      ensures NativeField(a[i], winners) == NativeField(b[i], winners) <==>
              FieldFaithfulUnder(Exported(fs)[i], outer, winners)
    {
      assert a[i] == OverrideFrom(ShadowField(Exported(fs)[i]), outer) && b[i] == Under(Exported(fs)[i], outer);
      FieldPrintsIff(Exported(fs)[i], outer, winners);
    }
  }

  lemma {:induction false} SameByField(fs: seq<Field>, outer: seq<Field>, a: seq<Field>, b: seq<Field>, winners: set<(string, bool)>)
    requires |Exported(fs)| <= |a| == |b| && winners == Winners(Intended(fs, outer))
    requires forall i :: 0 <= i < |Exported(fs)| ==>
               (NativeField(a[i], winners) == NativeField(b[i], winners) <==> FieldFaithfulUnder(Exported(fs)[i], outer, winners))
    requires forall i :: |Exported(fs)| <= i < |a| ==> a[i] == b[i]
    ensures (forall i :: 0 <= i < |a| ==> NativeField(a[i], winners) == NativeField(b[i], winners)) <==> FaithfulUnder(fs, outer)
  {
    if forall i :: 0 <= i < |a| ==> NativeField(a[i], winners) == NativeField(b[i], winners) {
      forall i | 0 <= i < |Exported(fs)|
        ensures FieldFaithfulUnder(Exported(fs)[i], outer, winners)
      {
        assert NativeField(a[i], winners) == NativeField(b[i], winners);
      }
    }
  }

  /** What `MarshalJSON` promises: the resource's own fields, printed natively, with the outer
      resource over them and its other fields after them.  It keeps that exactly when each own value
      that stays is faithful under the tag it gets, and no outer one is an empty list under omitempty. */
  lemma {:induction false} ResourcePrintsUnderOuterIff(fs: seq<Field>, outer: seq<Field>)
    requires AllExported(outer)
    ensures Native(Struct(Merged(ShadowFields(fs), outer))) == Native(Struct(Intended(fs, outer)))
       <==> FaithfulUnder(fs, outer)
  {
    var a, b := Merged(ShadowFields(fs), outer), Intended(fs, outer);
    var winners := Winners(b);
    MergedBesideIntended(fs, outer, winners);
    StructsPrintSameIff(a, b);
    SameByField(fs, outer, a, b, winners);
  }

  /** For instance, nil tags that the resource alone would print as null are left out under the
      outer tag, which has omitempty. */
  lemma {:induction false} NilTagsTakeOuterTag()
    ensures var own := Field("Tags", Named("tags", false, true), true, NilList);
            var outer := own.(tag := Named("tags", true, true));
            && Native(Struct([own])) == JObject([Member("tags", JNull)])
            && Native(Struct(Merged(ShadowFields([own]), [outer]))) == JObject([])
  {
    var own := Field("Tags", Named("tags", false, true), true, NilList);
    var outer := own.(tag := Named("tags", true, true));
    OneFieldStruct(own);
    OneFieldStruct(outer);
    assert [own][1..] == [] && [outer][1..] == [];
    assert Exported([own]) == [own] by { assert Exported([own]) == [own] + Exported([]); }
    OverridesOnlyField(own, outer);
    ResourcePrintsUnderOuterIff([own], [outer]);
    assert FaithfulUnder([own], [outer]);
  }

  /** One field under a zero outer field of its name keeps its value and takes the tag. */
  lemma {:induction false} OverridesOnlyField(own: Field, outer: Field)
    requires own.exported && own.name == outer.name && IsZero(outer.value)
    ensures Intended([own], [outer]) == [own.(tag := outer.tag)]
  {
    assert Exported([own]) == [own] by { assert [own][1..] == [] && Exported([own]) == [own] + Exported([]); }
    assert Find([outer], own.name) == Some(outer) && Find([own], outer.name) == Some(own);
    assert [outer][..0] == [];
    assert NewFields([own], [outer]) == [];
  }

  // ---------------------------------------------------------------- the method itself

  /** What a value is once pointers and interfaces have been followed. */
  function Pointee(v: Value): Value {
    if v.Ref? then Pointee(v.target) else v
  }

  lemma {:induction false} FieldsOfCopy(v: Value)
    ensures Fields(ShadowCopy(v)) == if Pointee(v).Struct? then Some(ShadowFields(Pointee(v).fields)) else None
  {
    if v.Ref? {
      FieldsOfCopy(v.target);
    }
  }

  /** A struct, behind however many pointers, is printed as intended exactly if it is faithful under
      the outer struct; anything else is an error. */
  method MarshalJSON(resource: Value, outer: seq<Field>) returns (r: Option<Json>)
    requires Fields(ShadowCopy(resource)).Some? ==> DistinctFields(Fields(ShadowCopy(resource)).value)
    requires DistinctFields(outer) && AllExported(outer)
    ensures r.Some? <==> Pointee(resource).Struct?
    ensures r.Some? ==>
              (r.value == Native(Struct(Intended(Pointee(resource).fields, outer))) <==>
               FaithfulUnder(Pointee(resource).fields, outer))
    ensures r == match Fields(ShadowCopy(resource))
                 case None => None
                 case Some(inner) => Some(Native(Struct(Merged(inner, outer))))
  {
    var copy := ShadowCopy(resource);
    FieldsOfCopy(resource);
    if Pointee(resource).Struct? {
      ResourcePrintsUnderOuterIff(Pointee(resource).fields, outer);
    }
    match Fields(copy)
    case None => r := None;
    case Some(inner) =>
      var merged := Merge(inner, outer);
      r := Some(Native(Struct(merged)));
  }
}
