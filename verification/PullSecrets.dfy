/**
 Merging pull secrets: `pkg/util/pullsecret/pullsecret.go`, and its use in
 `pkg/installer/generateconfig.go`.

 Reading and writing JSON are parameters.  An entry is None where the JSON says null: Go then
 holds a nil map, which is also what looking up a missing key yields.
 */
module PullSecrets {
  import opened Wrappers

  type Entry = Option<map<string, string>>

  type Auths = map<string, Entry>

  /** The `auths` map is None when it is nil. */
  datatype PullSecret = PullSecret(auths: Option<Auths>)

  /** What a text parses to: a JSON null makes the Go pointer nil. */
  datatype Parsed = Malformed | Null | Object(secret: PullSecret)

  datatype Codec = Codec(parse: string -> Parsed, render: PullSecret -> string, encode: string -> string)

  /** Writing leaves out an empty `auths`; otherwise reading back yields what was written. */
  ghost predicate RoundTrips(codec: Codec) {
    && codec.parse("{}") == Object(PullSecret(None))
    && forall s :: codec.render(s) != "" && codec.parse(codec.render(s)) == Object(Written(s))
  }

  function Written(s: PullSecret): PullSecret {
    if s.auths == Some(map[]) then PullSecret(None) else s
  }

  datatype Error = BadJson | Panic

  function OrEmpty(text: string): string {
    if text == "" then "{}" else text
  }

  function AuthsOf(s: PullSecret): Auths {
    if s.auths.None? then map[] else s.auths.value
  }

  /** Go's map lookup. */
  function Get(auths: Auths, k: string): Entry {
    if k in auths then auths[k] else None
  }

  // ---------------------------------------------------------------- merging

  /** Entries of `over` win; a null entry is not added where there is none. */
  function MergedAuths(base: Auths, over: Auths): (r: Auths)
    ensures forall k :: k in r <==> k in base || (k in over && over[k].Some?)
    ensures forall k :: k in r ==> r[k] == if k in over then over[k] else base[k]
  {
    map k | k in base.Keys + over.Keys && (k in base || over[k].Some?) :: if k in over then over[k] else base[k]
  }

  function MergedSecret(base: PullSecret, over: PullSecret): PullSecret {
    if AuthsOf(over) == map[] then base else PullSecret(Some(MergedAuths(AuthsOf(base), AuthsOf(over))))
  }

  predicate Differs(base: Auths, over: Auths) {
    exists k | k in over :: Get(base, k) != over[k]
  }

  /** The entries looked at so far. */
  function Restricted(over: Auths, seen: set<string>): Auths {
    map k | k in over && k in seen :: over[k]
  }

  /** The loop over the map, which Go runs in an order of its own choosing. */
  method MergeSecrets(base: PullSecret, over: PullSecret) returns (r: PullSecret, changed: bool)
    ensures r == MergedSecret(base, over)
    ensures changed == Differs(AuthsOf(base), AuthsOf(over))
  {
    var entries := AuthsOf(over);
    if entries == map[] {
      return base, false;
    }
    var auths := AuthsOf(base);
    changed := false;
    var todo := entries.Keys;
    ghost var seen: set<string> := {};
    while todo != {}
      invariant todo + seen == entries.Keys && todo !! seen
      invariant auths == MergedAuths(AuthsOf(base), Restricted(entries, seen))
      invariant changed == Differs(AuthsOf(base), Restricted(entries, seen))
      decreases |todo|
    {
      var k :| k in todo;
      MergeStep(AuthsOf(base), entries, seen, k);
      if Get(auths, k) != entries[k] {
        auths := auths[k := entries[k]];
        changed := true;
      }
      seen, todo := seen + {k}, todo - {k};
    }
    assert Restricted(entries, seen) == entries;
    r := PullSecret(Some(auths));
  }

  lemma {:induction false} RestrictedNext(over: Auths, seen: set<string>, k: string)
    requires k in over && k !in seen
    ensures Restricted(over, seen + {k}) == Restricted(over, seen)[k := over[k]] && k !in Restricted(over, seen)
  {
  }

  lemma {:induction false} MergeStep(base: Auths, over: Auths, seen: set<string>, k: string)
    requires k in over && k !in seen
    ensures var before := MergedAuths(base, Restricted(over, seen));
            && Get(before, k) == Get(base, k)
            && MergedAuths(base, Restricted(over, seen + {k})) == (if Get(before, k) != over[k] then before[k := over[k]] else before)
    ensures Differs(base, Restricted(over, seen + {k})) <==> Differs(base, Restricted(over, seen)) || Get(base, k) != over[k]
  {
    RestrictedNext(over, seen, k);
    MergeOneMore(base, Restricted(over, seen), k, over[k]);
    DiffersOneMore(base, Restricted(over, seen), k, over[k]);
  }

  lemma {:induction false} MergeOneMore(base: Auths, over: Auths, k: string, e: Entry)
    requires k !in over
    ensures var before := MergedAuths(base, over);
            && Get(before, k) == Get(base, k)
            && MergedAuths(base, over[k := e]) == if Get(before, k) != e then before[k := e] else before
  {
  }

  lemma {:induction false} DiffersOneMore(base: Auths, over: Auths, k: string, e: Entry)
    requires k !in over
    ensures Differs(base, over[k := e]) <==> Differs(base, over) || Get(base, k) != e
  {
    var over' := over[k := e];
    if Differs(base, over) {
      var j :| j in over && Get(base, j) != over[j];
      assert j in over' && Get(base, j) != over'[j];
    }
    assert k in over' && over'[k] == e;
  }

  /** The changed flag is right, null entries or not: it says whether the result differs. */
  lemma {:induction false} MergeFlagIsExact(base: PullSecret, over: PullSecret)
    ensures Differs(AuthsOf(base), AuthsOf(over)) <==> Written(MergedSecret(base, over)) != Written(base)
  {
    var b, o := AuthsOf(base), AuthsOf(over);
    if Differs(b, o) {
      var k :| k in o && Get(b, k) != o[k];
      assert Get(AuthsOf(MergedSecret(base, over)), k) == o[k];
    } else {
      forall k | k in MergedAuths(b, o)
        ensures k in b && b[k] == MergedAuths(b, o)[k]
      {
        assert k in o ==> Get(b, k) == o[k];
      }
      assert MergedAuths(b, o) == b;
    }
  }

  /** The result is the second secret laid over the first exactly when the second one has no null
      entry for a key the first one lacks. */
  lemma {:induction false} MergeIsOverlayIff(base: Auths, over: Auths)
    ensures MergedAuths(base, over) == base + over <==> forall k :: k in over && over[k].None? ==> k in base
  {
    if forall k :: k in over && over[k].None? ==> k in base {
      assert MergedAuths(base, over) == base + over;
    } else {
      var k :| k in over && over[k].None? && k !in base;
      assert k in base + over && k !in MergedAuths(base, over);
    }
  }

  // ---------------------------------------------------------------- registry profiles

  datatype RegistryProfile = RegistryProfile(name: string, username: string, password: string)

  function Credential(codec: Codec, rp: RegistryProfile): Entry {
    Some(map["auth" := codec.encode(rp.username + ":" + rp.password)])
  }

  /** The last profile of a name. */
  function LastProfile(rps: seq<RegistryProfile>, name: string): Option<RegistryProfile> {
    if rps == [] then None
    else if rps[|rps| - 1].name == name then Some(rps[|rps| - 1])
    else LastProfile(rps[..|rps| - 1], name)
  }

  function WithProfiles(codec: Codec, auths: Auths, rps: seq<RegistryProfile>): Auths {
    if rps == [] then auths
    else WithProfiles(codec, auths, rps[..|rps| - 1])[rps[|rps| - 1].name := Credential(codec, rps[|rps| - 1])]
  }

  lemma {:induction false} LastProfileWins(codec: Codec, auths: Auths, rps: seq<RegistryProfile>, k: string)
    ensures k in WithProfiles(codec, auths, rps) <==> k in auths || LastProfile(rps, k).Some?
    ensures LastProfile(rps, k).Some? ==>
              WithProfiles(codec, auths, rps)[k] == Credential(codec, LastProfile(rps, k).value)
    ensures LastProfile(rps, k).None? && k in auths ==> WithProfiles(codec, auths, rps)[k] == auths[k]
  {
    if rps != [] {
      LastProfileWins(codec, auths, rps[..|rps| - 1], k);
    }
  }

  predicate Unlike(codec: Codec, auths: Auths, rp: RegistryProfile) {
    Get(auths, rp.name) != Credential(codec, rp)
  }

  /** The flag after the loop: some profile's credential is not what the secret held to begin with. */
  predicate SomeUnlike(codec: Codec, auths: Auths, rps: seq<RegistryProfile>) {
    exists i | 0 <= i < |rps| :: Unlike(codec, auths, rps[i])
  }

  method SetProfiles(codec: Codec, secret: PullSecret, rps: seq<RegistryProfile>) returns (r: PullSecret, changed: bool)
    ensures r == PullSecret(Some(WithProfiles(codec, AuthsOf(secret), rps)))
    ensures changed == SomeUnlike(codec, AuthsOf(secret), rps)
  {
    var auths := AuthsOf(secret);
    changed := false;
    for i := 0 to |rps|
      invariant auths == WithProfiles(codec, AuthsOf(secret), rps[..i])
      invariant changed <==> exists j | 0 <= j < i :: Unlike(codec, AuthsOf(secret), rps[j])
      invariant !changed ==> forall k :: Get(auths, k) == Get(AuthsOf(secret), k)
    {
      assert rps[..i + 1][..i] == rps[..i];
      var v := Credential(codec, rps[i]);
      if Get(auths, rps[i].name) != v {
        UnlikeSomewhere(codec, AuthsOf(secret), rps, i, auths);
        changed := true;
      }
      auths := auths[rps[i].name := v];
    }
    assert rps[..|rps|] == rps;
    r := PullSecret(Some(auths));
  }

  /** If a profile changes the secret as it has become, it or an earlier one is unlike the original. */
  lemma {:induction false} UnlikeSomewhere(codec: Codec, original: Auths, rps: seq<RegistryProfile>, i: nat, auths: Auths)
    requires i < |rps| && auths == WithProfiles(codec, original, rps[..i])
    requires Get(auths, rps[i].name) != Credential(codec, rps[i])
    ensures exists j | 0 <= j < i + 1 :: Unlike(codec, original, rps[j])
  {
    if forall j | 0 <= j < i :: !Unlike(codec, original, rps[j]) {
      AllAlike(codec, original, rps[..i], rps[i].name);
      assert Unlike(codec, original, rps[i]);
    }
  }

  lemma {:induction false} AllAlike(codec: Codec, original: Auths, rps: seq<RegistryProfile>, k: string)
    requires forall j | 0 <= j < |rps| :: !Unlike(codec, original, rps[j])
    ensures Get(WithProfiles(codec, original, rps), k) == Get(original, k)
  {
    if rps != [] {
      AllAlike(codec, original, rps[..|rps| - 1], k);
    }
  }

  ghost predicate DistinctProfiles(rps: seq<RegistryProfile>) {
    forall i, j :: 0 <= i < j < |rps| ==> rps[i].name != rps[j].name
  }

  lemma {:induction false} LastOfDistinct(rps: seq<RegistryProfile>, i: nat)
    requires DistinctProfiles(rps) && i < |rps|
    ensures LastProfile(rps, rps[i].name) == Some(rps[i])
  {
    if i < |rps| - 1 {
      LastOfDistinct(rps[..|rps| - 1], i);
    }
  }

  lemma {:induction false} LastProfileIsListed(rps: seq<RegistryProfile>, k: string)
    requires LastProfile(rps, k).Some?
    ensures LastProfile(rps, k).value in rps && LastProfile(rps, k).value.name == k
  {
    if rps[|rps| - 1].name != k {
      LastProfileIsListed(rps[..|rps| - 1], k);
    }
  }

  /** Some profile that no later one of its name replaces is not what the secret held to begin with. */
  predicate LastUnlike(codec: Codec, auths: Auths, rps: seq<RegistryProfile>) {
    exists i | 0 <= i < |rps| :: LastProfile(rps, rps[i].name) == Some(rps[i]) && Unlike(codec, auths, rps[i])
  }

  /** Only the last profile of each name can make a difference. */
  lemma {:induction false} SecretChangesIff(codec: Codec, auths: Auths, rps: seq<RegistryProfile>)
    ensures WithProfiles(codec, auths, rps) != auths <==> LastUnlike(codec, auths, rps)
  {
    var r := WithProfiles(codec, auths, rps);
    if LastUnlike(codec, auths, rps) {
      var i :| 0 <= i < |rps| && LastProfile(rps, rps[i].name) == Some(rps[i]) && Unlike(codec, auths, rps[i]);
      LastProfileWins(codec, auths, rps, rps[i].name);
    } else {
      forall k
        ensures k in r <==> k in auths
        ensures k in auths ==> r[k] == auths[k]
      {
        LastProfileWins(codec, auths, rps, k);
        if LastProfile(rps, k).Some? {
          LastProfileIsListed(rps, k);
          var i :| 0 <= i < |rps| && rps[i] == LastProfile(rps, k).value;
          assert !Unlike(codec, auths, rps[i]);
        }
      }
      assert r == auths;
    }
  }

  /** A difference always raises the flag.  The flag is right exactly when a profile that is unlike
      the secret comes with one that is and stands last of its name, so with distinct names always. */
  lemma {:induction false} ProfileFlag(codec: Codec, auths: Auths, rps: seq<RegistryProfile>)
    ensures WithProfiles(codec, auths, rps) != auths ==> SomeUnlike(codec, auths, rps)
    ensures (SomeUnlike(codec, auths, rps) <==> WithProfiles(codec, auths, rps) != auths) <==>
            (SomeUnlike(codec, auths, rps) ==> LastUnlike(codec, auths, rps))
    ensures DistinctProfiles(rps) ==>
              (SomeUnlike(codec, auths, rps) <==> WithProfiles(codec, auths, rps) != auths)
  {
    SecretChangesIff(codec, auths, rps);
    if DistinctProfiles(rps) && SomeUnlike(codec, auths, rps) {
      var i :| 0 <= i < |rps| && Unlike(codec, auths, rps[i]);
      LastOfDistinct(rps, i);
    }
  }

  /** With a repeated name the flag can be raised over a secret that ends up as it was: the first
      profile of the name is unlike the secret, the last one is what it held. */
  lemma {:induction false} RepeatedNameRaisesFlag(codec: Codec, first: RegistryProfile, second: RegistryProfile)
    requires first.name == second.name && Credential(codec, first) != Credential(codec, second)
    ensures var auths: Auths := map[second.name := Credential(codec, second)];
            && SomeUnlike(codec, auths, [first, second]) && !LastUnlike(codec, auths, [first, second])
            && WithProfiles(codec, auths, [first, second]) == auths
  {
    var auths: Auths := map[second.name := Credential(codec, second)];
    assert Unlike(codec, auths, [first, second][0]);
    assert [first, second][..1] == [first] && [first][..0] == [];
    assert WithProfiles(codec, auths, [first]) == auths[first.name := Credential(codec, first)];
    SecretChangesIff(codec, auths, [first, second]);
  }

  // ---------------------------------------------------------------- on texts

  function Merge(codec: Codec, base: string, over: string): Result<(string, bool), Error> {
    match (codec.parse(OrEmpty(base)), codec.parse(OrEmpty(over)))
    case (Malformed, _) => Failure(BadJson)
    case (_, Malformed) => Failure(BadJson)
    case (_, Null) => Failure(Panic)
    case (Null, Object(o)) => if AuthsOf(o) == map[] then Success(("null", false)) else Failure(Panic)
    case (Object(b), Object(o)) => Success((codec.render(MergedSecret(b, o)), Differs(AuthsOf(b), AuthsOf(o))))
  }

  function SetRegistryProfiles(codec: Codec, text: string, rps: seq<RegistryProfile>): Result<(string, bool), Error> {
    match codec.parse(OrEmpty(text))
    case Malformed => Failure(BadJson)
    case Null => Failure(Panic)
    case Object(s) =>
      Success((codec.render(PullSecret(Some(WithProfiles(codec, AuthsOf(s), rps)))), SomeUnlike(codec, AuthsOf(s), rps)))
  }

  function Without(s: PullSecret, key: string): PullSecret {
    if s.auths.None? then s else PullSecret(Some(s.auths.value - {key}))
  }

  function RemoveKey(codec: Codec, text: string, key: string): Result<string, Error> {
    match codec.parse(OrEmpty(text))
    case Malformed => Failure(BadJson)
    case Null => Failure(Panic)
    case Object(s) => Success(codec.render(Without(s, key)))
  }

  /** `Build`, with the environment variable's text as an argument. */
  function Build(codec: Codec, environment: string, cluster: string, rps: seq<RegistryProfile>): Result<string, Error> {
    match Merge(codec, environment, cluster)
    case Failure(e) => Failure(e)
    case Success((merged, _)) =>
      match SetRegistryProfiles(codec, merged, rps)
      case Failure(e) => Failure(e)
      case Success((text, _)) => Success(text)
  }

  /** The pull secret of the install config: built, then stripped of one key. */
  method BuildPullSecret(codec: Codec, environment: string, cluster: string, rps: seq<RegistryProfile>, key: string)
      returns (r: Result<string, Error>)
    ensures r == match Build(codec, environment, cluster, rps)
                 case Failure(e) => Failure(e)
                 case Success(text) => RemoveKey(codec, text, key)
  {
    var b, o := codec.parse(OrEmpty(environment)), codec.parse(OrEmpty(cluster));
    if b.Malformed? || o.Malformed? {
      return Failure(BadJson);
    }
    if o.Null? || (b.Null? && AuthsOf(o.secret) != map[]) {
      return Failure(Panic);
    }
    var merged := "null";
    if b.Object? {
      var s, _ := MergeSecrets(b.secret, o.secret);
      merged := codec.render(s);
    }
    var m := codec.parse(OrEmpty(merged));
    match m
    case Malformed => return Failure(BadJson);
    case Null => return Failure(Panic);
    case Object(s) =>
      var t, _ := SetProfiles(codec, s, rps);
      r := RemoveKey(codec, codec.render(t), key);
  }

  /** Who provides a key: the last registry profile of that name, else the cluster's own secret,
      else the environment's.  A null entry of the cluster's counts only over an entry of the
      environment's. */
  function Provider(codec: Codec, environment: Auths, cluster: Auths, rps: seq<RegistryProfile>, k: string): Option<Entry> {
    if LastProfile(rps, k).Some? then
      var rp := LastProfile(rps, k).value;
      Some(Some(map["auth" := codec.encode(rp.username + ":" + rp.password)]))
    else if k in cluster && (cluster[k].Some? || k in environment) then Some(cluster[k])
    else if k in environment then Some(environment[k])
    else None
  }

  /** For any two JSON objects: the final secret holds, for every key but the removed one, exactly
      what the key's provider says, and the removed key is absent. */
  lemma {:induction false} FinalSecretHasOneProvider(codec: Codec, environment: string, cluster: string,
                                                     rps: seq<RegistryProfile>, key: string, k: string)
    requires RoundTrips(codec)
    requires codec.parse(OrEmpty(environment)).Object? && codec.parse(OrEmpty(cluster)).Object?
    ensures var b, o := AuthsOf(codec.parse(OrEmpty(environment)).secret), AuthsOf(codec.parse(OrEmpty(cluster)).secret);
            var built := Build(codec, environment, cluster, rps);
            && built.Success?
            && var final := RemoveKey(codec, built.value, key);
               && final.Success? && codec.parse(final.value).Object?
               && var auths := AuthsOf(codec.parse(final.value).secret);
                  (if k in auths then Some(auths[k]) else None)
                  == (if k == key then None else Provider(codec, b, o, rps, k))
  {
    var b, o := codec.parse(OrEmpty(environment)).secret, codec.parse(OrEmpty(cluster)).secret;
    var merged := MergedSecret(b, o);
    var m := Written(merged);
    assert AuthsOf(m) == AuthsOf(merged) == MergedAuths(AuthsOf(b), AuthsOf(o));
    LastProfileWins(codec, AuthsOf(m), rps, k);
    var t := Written(PullSecret(Some(WithProfiles(codec, AuthsOf(m), rps))));
    assert AuthsOf(t) == WithProfiles(codec, AuthsOf(m), rps);
    assert AuthsOf(Written(Without(t, key))) == AuthsOf(t) - {key};
  }

  /** Which texts make up a pull secret: two JSON objects, and nothing else.  Text that is no JSON is
      an error; a JSON null leaves a nil pointer to be followed. */
  lemma {:induction false} FinalSecretExistsIff(codec: Codec, environment: string, cluster: string,
                                                rps: seq<RegistryProfile>, key: string)
    requires RoundTrips(codec) && codec.parse("null").Null?
    ensures var b := codec.parse(if environment == "" then "{}" else environment);
            var o := codec.parse(if cluster == "" then "{}" else cluster);
            var built := Build(codec, environment, cluster, rps);
            && (built.Success? <==> b.Object? && o.Object?)
            && (built == Failure(BadJson) <==> b.Malformed? || o.Malformed?)
            && (built.Success? ==> RemoveKey(codec, built.value, key).Success?)
  {
    var b, o := codec.parse(OrEmpty(environment)), codec.parse(OrEmpty(cluster));
    if b.Object? && o.Object? {
      FinalSecretHasOneProvider(codec, environment, cluster, rps, key, key);
    }
  }

  /** The flags that come with the texts: merging says that the text reads differently from the base;
      setting profiles says so too, but also of some that are put back by a later one. */
  lemma {:induction false} FlagsOfTexts(codec: Codec, base: string, over: string, rps: seq<RegistryProfile>)
    requires RoundTrips(codec)
    requires codec.parse(OrEmpty(base)).Object? && codec.parse(OrEmpty(over)).Object?
    ensures var b := codec.parse(OrEmpty(base)).secret;
            var (merged, set') := (Merge(codec, base, over), SetRegistryProfiles(codec, base, rps));
            && merged.Success? && codec.parse(merged.value.0).Object?
            && (merged.value.1 <==> codec.parse(merged.value.0).secret != Written(b))
            && set'.Success? && codec.parse(set'.value.0).Object?
            && (AuthsOf(codec.parse(set'.value.0).secret) != AuthsOf(b) <==> LastUnlike(codec, AuthsOf(b), rps))
            && (set'.value.1 <==> exists i | 0 <= i < |rps| :: Unlike(codec, AuthsOf(b), rps[i]))
  {
    var b, o := codec.parse(OrEmpty(base)).secret, codec.parse(OrEmpty(over)).secret;
    MergeFlagIsExact(b, o);
    SecretChangesIff(codec, AuthsOf(b), rps);
    assert AuthsOf(Written(PullSecret(Some(WithProfiles(codec, AuthsOf(b), rps))))) == WithProfiles(codec, AuthsOf(b), rps);
  }
}
