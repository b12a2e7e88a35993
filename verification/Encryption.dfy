/**
 Key rotation and sealing: `pkg/util/encryption/multi.go`, the nonce handling of
 `xchacha20poly1305.go` and `aescbc.go`, and the version filter of `pkg/util/keyvault`.

 The ciphers themselves are parameters.  What is assumed of them is said by `Correct` (opening
 undoes sealing under the same key) and `RejectsOtherKeys` (an honest ciphertext is refused
 under every other key and by the other cipher).
 */
module Encryption {
  import opened Wrappers
  import opened Base64

  datatype Ciphers = Ciphers(
    aesNonceSize: nat,
    aesSeal: (Bytes, Bytes, Bytes) -> Bytes,                 // key, nonce, plaintext; carries its nonce
    aesOpen: (Bytes, Bytes) -> Option<Bytes>,                // key, sealed
    chachaNonceSize: nat,
    chachaSeal: (Bytes, Bytes, Bytes) -> Bytes,              // key, nonce, plaintext
    chachaOpen: (Bytes, Bytes, Bytes) -> Option<Bytes>)      // key, nonce, data

  datatype Error = NotFound | Forbidden | IllegalBase64 | BadKeyLength | TooShort | Rejected | NoRandomness

  const AES_KEY_SIZE := 64
  const CHACHA_KEY_SIZE := 32
  const AES_MIN_SEALED := 32

  datatype Aead = Aes(key: Bytes) | XChaCha(key: Bytes)

  function NewAes(key: Bytes): Result<Aead, Error> {
    if |key| == AES_KEY_SIZE then Success(Aes(key)) else Failure(BadKeyLength)
  }

  function NewXChaCha(key: Bytes): Result<Aead, Error> {
    if |key| == CHACHA_KEY_SIZE then Success(XChaCha(key)) else Failure(BadKeyLength)
  }

  function NonceSize(cs: Ciphers, a: Aead): nat {
    if a.Aes? then cs.aesNonceSize else cs.chachaNonceSize
  }

  /** `random` is what the random source yields when it is asked for a nonce: a short read fails. */
  function SealWith(cs: Ciphers, a: Aead, random: Bytes, input: Bytes): Result<Bytes, Error> {
    if |random| < NonceSize(cs, a) then Failure(NoRandomness)
    else
      var nonce := random[..NonceSize(cs, a)];
      match a
      case Aes(key) => Success(cs.aesSeal(key, nonce, input))
      case XChaCha(key) => Success(nonce + cs.chachaSeal(key, nonce, input))
  }

  function OpenWith(cs: Ciphers, a: Aead, input: Bytes): Result<Bytes, Error> {
    match a
    case Aes(key) =>
      if |input| < AES_MIN_SEALED then Failure(TooShort)
      else
        (match cs.aesOpen(key, input)
         case None => Failure(Rejected)
         case Some(plain) => Success(plain))
    case XChaCha(key) =>
      if |input| < cs.chachaNonceSize then Failure(TooShort)
      else
        match cs.chachaOpen(key, input[..cs.chachaNonceSize], input[cs.chachaNonceSize..])
        case None => Failure(Rejected)
        case Some(plain) => Success(plain)
  }

  // ---------------------------------------------------------------- what is assumed of the ciphers

  ghost predicate Correct(cs: Ciphers) {
    && (forall key, nonce, plain :: cs.aesOpen(key, cs.aesSeal(key, nonce, plain)) == Some(plain))
    && (forall key, nonce, plain :: |cs.aesSeal(key, nonce, plain)| >= AES_MIN_SEALED)
    && (forall key, nonce, plain :: cs.chachaOpen(key, nonce, cs.chachaSeal(key, nonce, plain)) == Some(plain))
  }

  ghost predicate RejectsOtherKeys(cs: Ciphers) {
    forall a, b, random, plain :: a != b && SealWith(cs, a, random, plain).Success? ==>
      OpenWith(cs, b, SealWith(cs, a, random, plain).value).Failure?
  }

  /** Opening undoes sealing for either cipher: the nonce the sealer puts in front is exactly
      what the opener cuts off. */
  lemma {:induction false} OpenUndoesSeal(cs: Ciphers, a: Aead, random: Bytes, plain: Bytes)
    requires Correct(cs) && SealWith(cs, a, random, plain).Success?
    ensures OpenWith(cs, a, SealWith(cs, a, random, plain).value) == Success(plain)
  {
    if a.XChaCha? {
      var nonce := random[..cs.chachaNonceSize];
      var data := cs.chachaSeal(a.key, nonce, plain);
      assert (nonce + data)[..cs.chachaNonceSize] == nonce;
      assert (nonce + data)[cs.chachaNonceSize..] == data;
    }
  }

  /** Sealing fails for want of randomness only; and the second cipher's nonce goes first. */
  lemma {:induction false} SealingLayout(cs: Ciphers, a: Aead, random: Bytes, plain: Bytes)
    ensures a.Aes? ==> (SealWith(cs, a, random, plain).Success? <==> |random| >= cs.aesNonceSize)
    ensures a.XChaCha? ==> (SealWith(cs, a, random, plain).Success? <==> |random| >= cs.chachaNonceSize)
    ensures a.XChaCha? && |random| >= cs.chachaNonceSize ==>
              var sealed := SealWith(cs, a, random, plain).value;
              && |sealed| >= cs.chachaNonceSize && sealed[..cs.chachaNonceSize] == random[..cs.chachaNonceSize]
              && sealed[cs.chachaNonceSize..] == cs.chachaSeal(a.key, random[..cs.chachaNonceSize], plain)
  {
    if a.XChaCha? && |random| >= cs.chachaNonceSize {
      var nonce := random[..cs.chachaNonceSize];
      var data := cs.chachaSeal(a.key, nonce, plain);
      assert (nonce + data)[..cs.chachaNonceSize] == nonce && (nonce + data)[cs.chachaNonceSize..] == data;
    }
  }

  /** Opening fails on an input that is too short to hold what it must, or if the cipher refuses it. */
  lemma {:induction false} OpeningFailsIff(cs: Ciphers, a: Aead, input: Bytes)
    ensures OpenWith(cs, a, input) == Failure(TooShort) <==> |input| < if a.Aes? then 32 else cs.chachaNonceSize
    ensures a.Aes? && |input| >= 32 ==> (OpenWith(cs, a, input).Success? <==> cs.aesOpen(a.key, input).Some?)
    ensures a.XChaCha? && |input| >= cs.chachaNonceSize ==>
              (OpenWith(cs, a, input).Success? <==>
               cs.chachaOpen(a.key, input[..cs.chachaNonceSize], input[cs.chachaNonceSize..]).Some?)
  {
  }

  // ---------------------------------------------------------------- the key vault

  /** `value` is the decoded secret, or None when the stored text is not base64. */
  datatype Version = Version(id: nat, enabled: bool, value: Option<Bytes>)

  /** The versions in the order the vault lists them, and the id of the current one. */
  datatype Secret = Secret(versions: seq<Version>, current: nat)

  type Vault = map<string, Secret>

  ghost predicate WellFormedSecret(s: Secret) {
    && (forall i, j :: 0 <= i < j < |s.versions| ==> s.versions[i].id != s.versions[j].id)
    && (exists i :: 0 <= i < |s.versions| && s.versions[i].id == s.current)
  }

  ghost predicate WellFormedVault(vault: Vault) {
    forall name :: name in vault ==> WellFormedSecret(vault[name])
  }

  /** `GetBase64Secret`: the vault refuses a disabled version, decoding refuses a bad value. */
  function FetchVersion(versions: seq<Version>, id: nat): Result<Bytes, Error> {
    if versions == [] then Failure(NotFound)
    else if versions[0].id != id then FetchVersion(versions[1..], id)
    else if !versions[0].enabled then Failure(Forbidden)
    else if versions[0].value.None? then Failure(IllegalBase64)
    else Success(versions[0].value.value)
  }

  function CurrentKey(vault: Vault, name: string): Result<Bytes, Error> {
    if name in vault then FetchVersion(vault[name].versions, vault[name].current) else Failure(NotFound)
  }

  function Enabled(versions: seq<Version>): seq<Version> {
    if versions == [] then []
    else (if versions[0].enabled then [versions[0]] else []) + Enabled(versions[1..])
  }

  lemma {:induction false} EnabledMembers(versions: seq<Version>)
    ensures forall v :: v in Enabled(versions) <==> v in versions && v.enabled
  {
    if versions != [] {
      EnabledMembers(versions[1..]);
      assert versions == [versions[0]] + versions[1..];
    }
  }

  /** The values of the enabled versions in listing order, unless one of them cannot be decoded. */
  function EnabledKeys(vault: Vault, name: string): Result<seq<Bytes>, Error> {
    if name !in vault then Failure(NotFound)
    else
      var es := Enabled(vault[name].versions);
      if exists i | 0 <= i < |es| :: es[i].value.None? then Failure(IllegalBase64)
      else Success(seq(|es|, i requires 0 <= i < |es| => es[i].value.value))
  }

  lemma {:induction false} FetchFindsVersion(versions: seq<Version>, i: nat)
    requires i < |versions|
    requires forall i, j :: 0 <= i < j < |versions| ==> versions[i].id != versions[j].id
    ensures FetchVersion(versions, versions[i].id)
         == if !versions[i].enabled then Failure(Forbidden)
            else if versions[i].value.None? then Failure(IllegalBase64)
            else Success(versions[i].value.value)
  {
    if i > 0 {
      assert versions[0].id != versions[i].id;
      FetchFindsVersion(versions[1..], i - 1);
    }
  }

  /** Filtering keeps the order and the number of the enabled versions. */
  lemma {:induction false} EnabledKeepsOrder(a: seq<Version>, b: seq<Version>)
    ensures Enabled(a + b) == Enabled(a) + Enabled(b)
  {
    if a == [] {
      assert a + b == b;
    } else {
      assert (a + b)[0] == a[0] && (a + b)[1..] == a[1..] + b;
      EnabledKeepsOrder(a[1..], b);
    }
  }

  lemma {:induction false} EnabledSplit(versions: seq<Version>, i: nat)
    requires i < |versions|
    ensures Enabled(versions[..i + 1]) == Enabled(versions[..i]) + (if versions[i].enabled then [versions[i]] else [])
  {
    assert versions[..i + 1] == versions[..i] + [versions[i]];
    EnabledKeepsOrder(versions[..i], [versions[i]]);
    assert [versions[i]][1..] == [];
  }

  method GetBase64Secrets(vault: Vault, name: string) returns (r: Result<seq<Bytes>, Error>)
    requires WellFormedVault(vault)
    ensures r == EnabledKeys(vault, name)
  {
    if name !in vault {
      return Failure(NotFound);
    }
    var versions := vault[name].versions;
    var keys: seq<Bytes> := [];
    for i := 0 to |versions|
      invariant var es := Enabled(versions[..i]);
                && |keys| == |es|
                && (forall j :: 0 <= j < |es| ==> es[j].value == Some(keys[j]))
    {
      EnabledSplit(versions, i);
      if !versions[i].enabled {
        continue;
      }
      FetchFindsVersion(versions, i);
      var key := FetchVersion(versions, versions[i].id);
      if key.Failure? {
        EnabledMembers(versions);
        assert versions[i] in versions;
        return Failure(key.error);
      }
      keys := keys + [key.value];
    }
    ghost var es := Enabled(versions);
    assert versions[..|versions|] == versions;
    assert keys == seq(|es|, i requires 0 <= i < |es| => es[i].value.value);
    r := Success(keys);
  }

  // ---------------------------------------------------------------- the composed cipher

  datatype Multi = Multi(sealer: Aead, openers: seq<Aead>)

  datatype Kind = AesKind | XChaChaKind

  function NewAead(kind: Kind, key: Bytes): Result<Aead, Error> {
    match kind
    case AesKind => NewAes(key)
    case XChaChaKind => NewXChaCha(key)
  }

  function AeadOf(kind: Kind, key: Bytes): Aead {
    match kind
    case AesKind => Aes(key)
    case XChaChaKind => XChaCha(key)
  }

  function KeySize(kind: Kind): nat {
    match kind
    case AesKind => AES_KEY_SIZE
    case XChaChaKind => CHACHA_KEY_SIZE
  }

  /** One opener for every enabled version of a secret, unless a version is unusable. */
  function OpenersFor(vault: Vault, name: string, kind: Kind): Result<seq<Aead>, Error> {
    match EnabledKeys(vault, name)
    case Failure(e) => Failure(e)
    case Success(keys) =>
      if exists i | 0 <= i < |keys| :: |keys[i]| != KeySize(kind) then Failure(BadKeyLength)
      else Success(seq(|keys|, i requires 0 <= i < |keys| => AeadOf(kind, keys[i])))
  }

  /** What `NewMulti` builds: one sealer from the current key, and an opener for every enabled
      version of the secret and then of the legacy secret. */
  function Composed(vault: Vault, name: string, legacy: string): Result<Multi, Error> {
    match CurrentKey(vault, name)
    case Failure(e) => Failure(e)
    case Success(key) =>
      match NewAes(key)
      case Failure(e) => Failure(e)
      case Success(sealer) =>
        match OpenersFor(vault, name, AesKind)
        case Failure(e) => Failure(e)
        case Success(aes) =>
          match OpenersFor(vault, legacy, XChaChaKind)
          case Failure(e) => Failure(e)
          case Success(chachas) => Success(Multi(sealer, aes + chachas))
  }

  method AppendOpeners(vault: Vault, name: string, kind: Kind, openers: seq<Aead>)
      returns (r: Result<seq<Aead>, Error>)
    requires WellFormedVault(vault)
    ensures r == match OpenersFor(vault, name, kind)
                 case Failure(e) => Failure(e)
                 case Success(more) => Success(openers + more)
  {
    var keys := GetBase64Secrets(vault, name);
    if keys.Failure? {
      return Failure(keys.error);
    }
    var all := openers;
    for i := 0 to |keys.value|
      invariant forall j :: 0 <= j < i ==> |keys.value[j]| == KeySize(kind)
      invariant all == openers + seq(i, j requires 0 <= j < |keys.value| => AeadOf(kind, keys.value[j]))
    {
      var aead := NewAead(kind, keys.value[i]);
      if aead.Failure? {
        return Failure(aead.error);
      }
      all := all + [aead.value];
    }
    r := Success(all);
  }

  method NewMulti(vault: Vault, name: string, legacy: string) returns (r: Result<Multi, Error>)
    requires WellFormedVault(vault)
    ensures r == Composed(vault, name, legacy)
  {
    var key := CurrentKey(vault, name);
    if key.Failure? {
      return Failure(key.error);
    }
    var sealer := NewAes(key.value);
    if sealer.Failure? {
      return Failure(sealer.error);
    }
    var table := [(name, AesKind), (legacy, XChaChaKind)];
    var openers := AppendOpeners(vault, table[0].0, table[0].1, []);
    if openers.Failure? {
      return Failure(openers.error);
    }
    assert forall more: seq<Aead> :: [] + more == more;
    openers := AppendOpeners(vault, table[1].0, table[1].1, openers.value);
    if openers.Failure? {
      return Failure(openers.error);
    }
    r := Success(Multi(sealer.value, openers.value));
  }

  /** Go's pair of results: with no opener at all both halves are nil. */
  datatype Opened = Opened(bytes: Option<Bytes>, err: Option<Error>)

  ghost predicate FirstAccepting(cs: Ciphers, m: Multi, input: Bytes, i: nat) {
    && i < |m.openers|
    && OpenWith(cs, m.openers[i], input).Success?
    && (forall j :: 0 <= j < i ==> OpenWith(cs, m.openers[j], input).Failure?)
  }

  /** The plaintext `Open` yields, as a function. */
  ghost function Plaintext(cs: Ciphers, m: Multi, input: Bytes): (p: Option<Bytes>) {
    if i: nat :| FirstAccepting(cs, m, input, i) then Some(OpenWith(cs, m.openers[i], input).value) else None
  }

  /** The first accepting opener decides; if none accepts, the last opener's error is returned;
      and with no openers there is neither a plaintext nor an error. */
  method Open(cs: Ciphers, m: Multi, input: Bytes) returns (r: Opened)
    ensures r.bytes.Some? ==> r.err.None?
    ensures r.bytes.Some? ==> exists i: nat :: FirstAccepting(cs, m, input, i)
                                               && OpenWith(cs, m.openers[i], input) == Success(r.bytes.value)
    ensures r.bytes.None? ==> forall i :: 0 <= i < |m.openers| ==> OpenWith(cs, m.openers[i], input).Failure?
    ensures r.bytes.None? && m.openers != [] ==>
              r.err == Some(OpenWith(cs, m.openers[|m.openers| - 1], input).error)
    ensures m.openers == [] ==> r == Opened(None, None)
    ensures r.bytes == Plaintext(cs, m, input)
  {
    var err: Option<Error> := None;
    for i := 0 to |m.openers|
      invariant forall j :: 0 <= j < i ==> OpenWith(cs, m.openers[j], input).Failure?
      invariant err == if i == 0 then None else Some(OpenWith(cs, m.openers[i - 1], input).error)
    {
      var attempt := OpenWith(cs, m.openers[i], input);
      if attempt.Success? {
        assert FirstAccepting(cs, m, input, i);
        return Opened(Some(attempt.value), None);
      }
      err := Some(attempt.error);
    }
    r := Opened(None, err);
  }

  /** Whatever sealed it, a ciphertext opens to its plaintext as soon as its cipher and key are
      among the openers, wherever they stand in the list. */
  lemma {:induction false} OpenersFindTheirCiphertext(cs: Ciphers, m: Multi, a: Aead, random: Bytes, plain: Bytes)
    requires Correct(cs) && RejectsOtherKeys(cs)
    requires SealWith(cs, a, random, plain).Success?
    ensures Plaintext(cs, m, SealWith(cs, a, random, plain).value) == if a in m.openers then Some(plain) else None
  {
    var input := SealWith(cs, a, random, plain).value;
    OpenUndoesSeal(cs, a, random, plain);
    if a in m.openers {
      var i := FirstIndex(m.openers, a);
      assert FirstAccepting(cs, m, input, i);
    }
    forall i: nat | FirstAccepting(cs, m, input, i)
      ensures m.openers[i] == a
    {
    }
  }

  lemma {:induction false} FirstIndex(openers: seq<Aead>, a: Aead) returns (i: nat)
    requires a in openers
    ensures i < |openers| && openers[i] == a && a !in openers[..i]
  {
    i := 0;
    while openers[i] != a
      invariant i < |openers| && a !in openers[..i] && a in openers[i..]
      decreases |openers| - i
    {
      i := i + 1;
    }
  }

  // ---------------------------------------------------------------- rotation histories

  datatype VaultStep =
    | Add(name: string, v: Version)                       // becomes the current version
    | SetEnabled(name: string, id: nat, enabled: bool)
    | Relist(name: string, versions: seq<Version>)        // the listing order is the vault's affair

  function WithEnabled(versions: seq<Version>, id: nat, enabled: bool): (r: seq<Version>)
    ensures |r| == |versions|
    ensures forall i :: 0 <= i < |r| ==>
              r[i] == if versions[i].id == id then versions[i].(enabled := enabled) else versions[i]
  {
    seq(|versions|, i requires 0 <= i < |versions| =>
      if versions[i].id == id then versions[i].(enabled := enabled) else versions[i])
  }

  ghost predicate CanRotate(vault: Vault, step: VaultStep) {
    match step
    case Add(name, v) => name in vault ==> forall w :: w in vault[name].versions ==> w.id != v.id
    case SetEnabled(name, _, _) => name in vault
    case Relist(name, versions) => name in vault && multiset(versions) == multiset(vault[name].versions)
  }

  ghost function Rotate(vault: Vault, step: VaultStep): Vault
    requires CanRotate(vault, step)
  {
    match step
    case Add(name, v) =>
      vault[name := Secret((if name in vault then vault[name].versions else []) + [v], v.id)]
    case SetEnabled(name, id, enabled) =>
      vault[name := vault[name].(versions := WithEnabled(vault[name].versions, id, enabled))]
    case Relist(name, versions) =>
      vault[name := vault[name].(versions := versions)]
  }

  ghost predicate Rotated(vault: Vault, step: VaultStep, vault': Vault) {
    CanRotate(vault, step) && vault' == Rotate(vault, step)
  }

  ghost predicate CanBecome(vault: Vault, vault': Vault) {
    exists step :: Rotated(vault, step, vault')
  }

  ghost predicate History(vaults: seq<Vault>) {
    && vaults != []
    && WellFormedVault(vaults[0])
    && (forall i :: 1 <= i < |vaults| ==> CanBecome(vaults[i - 1], vaults[i]))
  }

  /** Version id of a secret exists and holds this value. */
  ghost predicate Holds(vault: Vault, name: string, id: nat, value: Option<Bytes>) {
    name in vault && exists v :: v in vault[name].versions && v.id == id && v.value == value
  }

  lemma {:induction false} RelistedIsWellFormed(s: Secret, versions: seq<Version>)
    requires WellFormedSecret(s) && multiset(versions) == multiset(s.versions)
    ensures WellFormedSecret(s.(versions := versions))
  {
    var i :| 0 <= i < |s.versions| && s.versions[i].id == s.current;
    assert s.versions[i] in multiset(versions);
    forall i, j | 0 <= i < j < |versions|
      ensures versions[i].id != versions[j].id
    {
      if versions[i].id == versions[j].id {
        assert versions[i] in multiset(s.versions) && versions[j] in multiset(s.versions);
        var x :| 0 <= x < |s.versions| && s.versions[x] == versions[i];
        var y :| 0 <= y < |s.versions| && s.versions[y] == versions[j];
        assert x == y;
        TwiceInSeq(versions, i, j);
        OnceInSeq(s.versions, x);
        assert false;
      }
    }
  }

  lemma {:induction false} TwiceInSeq(vs: seq<Version>, i: nat, j: nat)
    requires i < j < |vs| && vs[i] == vs[j]
    ensures multiset(vs)[vs[i]] >= 2
  {
    assert vs == vs[..j] + [vs[j]] + vs[j + 1..];
    assert vs[..j][i] == vs[i];
    assert multiset(vs) == multiset(vs[..j]) + multiset{vs[j]} + multiset(vs[j + 1..]);
  }

  lemma {:induction false} OnceInSeq(vs: seq<Version>, i: nat)
    requires i < |vs|
    requires forall i, j :: 0 <= i < j < |vs| ==> vs[i].id != vs[j].id
    ensures multiset(vs)[vs[i]] == 1
  {
    assert vs == vs[..i] + [vs[i]] + vs[i + 1..];
    assert multiset(vs) == multiset(vs[..i]) + multiset{vs[i]} + multiset(vs[i + 1..]);
    assert vs[i] !in vs[..i] && vs[i] !in vs[i + 1..];
  }

  lemma {:induction false} AddKeeps(vault: Vault, n: string, v: Version, name: string, id: nat, value: Option<Bytes>)
    requires WellFormedVault(vault) && CanRotate(vault, Add(n, v))
    ensures WellFormedVault(Rotate(vault, Add(n, v)))
    ensures Holds(vault, name, id, value) ==> Holds(Rotate(vault, Add(n, v)), name, id, value)
  {
    var vs := Rotate(vault, Add(n, v))[n].versions;
    assert vs[|vs| - 1].id == v.id;
  }

  lemma {:induction false} SetEnabledKeeps(vault: Vault, n: string, i: nat, e: bool, name: string, id: nat, value: Option<Bytes>)
    requires WellFormedVault(vault) && CanRotate(vault, SetEnabled(n, i, e))
    ensures WellFormedVault(Rotate(vault, SetEnabled(n, i, e)))
    ensures Holds(vault, name, id, value) ==> Holds(Rotate(vault, SetEnabled(n, i, e)), name, id, value)
  {
    var vs, vs' := vault[n].versions, Rotate(vault, SetEnabled(n, i, e))[n].versions;
    var x :| 0 <= x < |vs| && vs[x].id == vault[n].current;
    assert vs'[x].id == vault[n].current;
    if Holds(vault, name, id, value) && name == n {
      var y :| 0 <= y < |vs| && vs[y].id == id && vs[y].value == value;
      assert vs'[y] in vs';
    }
  }

  lemma {:induction false} RelistKeeps(vault: Vault, n: string, versions: seq<Version>, name: string, id: nat, value: Option<Bytes>)
    requires WellFormedVault(vault) && CanRotate(vault, Relist(n, versions))
    ensures WellFormedVault(Rotate(vault, Relist(n, versions)))
    ensures Holds(vault, name, id, value) ==> Holds(Rotate(vault, Relist(n, versions)), name, id, value)
  {
    RelistedIsWellFormed(vault[n], versions);
    if Holds(vault, name, id, value) && name == n {
      var v :| v in vault[n].versions && v.id == id && v.value == value;
      assert v in multiset(versions);
    }
  }

  lemma {:induction false} RotationKeeps(vault: Vault, step: VaultStep, name: string, id: nat, value: Option<Bytes>)
    requires WellFormedVault(vault) && CanRotate(vault, step)
    ensures WellFormedVault(Rotate(vault, step))
    ensures Holds(vault, name, id, value) ==> Holds(Rotate(vault, step), name, id, value)
  {
    match step
    case Add(n, v) => AddKeeps(vault, n, v, name, id, value);
    case SetEnabled(n, i, e) => SetEnabledKeeps(vault, n, i, e, name, id, value);
    case Relist(n, versions) => RelistKeeps(vault, n, versions, name, id, value);
  }

  /** Rotations never change or lose the value of a version that was once there. */
  lemma {:induction false} HistoryKeeps(vaults: seq<Vault>, i: nat, j: nat, name: string, id: nat, value: Option<Bytes>)
    requires History(vaults) && i <= j < |vaults|
    ensures WellFormedVault(vaults[j])
    ensures Holds(vaults[i], name, id, value) ==> Holds(vaults[j], name, id, value)
    decreases j
  {
    if j > 0 {
      HistoryKeeps(vaults, if i == j then j - 1 else i, j - 1, name, id, value);
      assert CanBecome(vaults[j - 1], vaults[j]);
      var step :| Rotated(vaults[j - 1], step, vaults[j]);
      RotationKeeps(vaults[j - 1], step, name, id, value);
    }
  }

  ghost predicate StillEnabled(vault: Vault, name: string, id: nat) {
    name in vault && exists v :: v in vault[name].versions && v.id == id && v.enabled
  }

  lemma {:induction false} CurrentKeyIsHeld(vault: Vault, name: string)
    requires WellFormedVault(vault) && CurrentKey(vault, name).Success?
    ensures Holds(vault, name, vault[name].current, Some(CurrentKey(vault, name).value))
    ensures StillEnabled(vault, name, vault[name].current)
  {
    var versions := vault[name].versions;
    var i :| 0 <= i < |versions| && versions[i].id == vault[name].current;
    FetchFindsVersion(versions, i);
    assert versions[i] in versions;
  }

  /** The sealer holds the key of the version that was current, and that key is an opener. */
  lemma {:induction false} SealerIsCurrent(vault: Vault, name: string, legacy: string)
    requires WellFormedVault(vault) && Composed(vault, name, legacy).Success?
    ensures var m := Composed(vault, name, legacy).value;
            && m.sealer.Aes?
            && Holds(vault, name, vault[name].current, Some(m.sealer.key))
            && StillEnabled(vault, name, vault[name].current)
  {
    CurrentKeyIsHeld(vault, name);
  }

  /** Every enabled version of the secret holds a key of this size. */
  ghost predicate AllUsable(vault: Vault, name: string, size: nat) {
    name in vault && forall v :: v in vault[name].versions && v.enabled ==> v.value.Some? && |v.value.value| == size
  }

  lemma {:induction false} OpenersForIff(vault: Vault, name: string, kind: Kind)
    ensures OpenersFor(vault, name, kind).Success? <==> AllUsable(vault, name, if kind.AesKind? then 64 else 32)
    ensures OpenersFor(vault, name, kind).Success? ==>
              forall a :: a in OpenersFor(vault, name, kind).value <==> IsKeyOf(vault, name, kind, a)
  {
    if name in vault {
      var es := Enabled(vault[name].versions);
      EnabledMembers(vault[name].versions);
      if EnabledKeys(vault, name).Success? {
        var keys := EnabledKeys(vault, name).value;
        assert forall i :: 0 <= i < |es| ==> es[i].value == Some(keys[i]);
        if AllUsable(vault, name, KeySize(kind)) {
          assert forall i :: 0 <= i < |es| ==> es[i] in es;
        } else {
          var v :| v in vault[name].versions && v.enabled && !(v.value.Some? && |v.value.value| == KeySize(kind));
          var i :| 0 <= i < |es| && es[i] == v;
          assert |keys[i]| != KeySize(kind);
        }
        if OpenersFor(vault, name, kind).Success? {
          OpenersAreKeys(vault, name, kind);
        }
      } else {
        var i :| 0 <= i < |es| && es[i].value.None?;
        assert es[i] in es;
      }
    }
  }

  /** The cipher of this kind whose key an enabled version of the secret holds. */
  ghost predicate IsKeyOf(vault: Vault, name: string, kind: Kind, a: Aead) {
    name in vault && exists v ::
      v in vault[name].versions && v.enabled && v.value.Some? && a == AeadOf(kind, v.value.value)
  }

  lemma {:induction false} OpenersAreKeys(vault: Vault, name: string, kind: Kind)
    requires OpenersFor(vault, name, kind).Success?
    ensures forall a :: a in OpenersFor(vault, name, kind).value <==> IsKeyOf(vault, name, kind, a)
  {
    var openers := OpenersFor(vault, name, kind).value;
    var es, keys := Enabled(vault[name].versions), EnabledKeys(vault, name).value;
    EnabledMembers(vault[name].versions);
    forall a
      ensures a in openers <==> IsKeyOf(vault, name, kind, a)
    {
      if a in openers {
        var i :| 0 <= i < |openers| && openers[i] == a;
        assert es[i] in es && es[i].value == Some(keys[i]);
      }
      if IsKeyOf(vault, name, kind, a) {
        var v :| v in vault[name].versions && v.enabled && v.value.Some? &&
                 a == AeadOf(kind, v.value.value);
        var i :| 0 <= i < |es| && es[i] == v;
        assert openers[i] == AeadOf(kind, keys[i]);
      }
    }
  }

  /** The version that is current can be fetched. */
  ghost predicate CurrentEnabled(vault: Vault, name: string) {
    name in vault && exists v :: v in vault[name].versions && v.id == vault[name].current && v.enabled
  }

  /** Exactly when the cipher can be composed: the secret's current version is enabled, and every
      enabled version of either secret holds a key of its cipher's size. */
  lemma {:induction false} ComposesIff(vault: Vault, name: string, legacy: string)
    requires WellFormedVault(vault)
    ensures Composed(vault, name, legacy).Success? <==>
              CurrentEnabled(vault, name) && AllUsable(vault, name, 64) && AllUsable(vault, legacy, 32)
  {
    OpenersForIff(vault, name, AesKind);
    OpenersForIff(vault, legacy, XChaChaKind);
    if CurrentKey(vault, name).Success? {
      CurrentKeyIsHeld(vault, name);
    }
    if CurrentEnabled(vault, name) {
      var versions := vault[name].versions;
      var i :| 0 <= i < |versions| && versions[i].id == vault[name].current && versions[i].enabled;
      FetchFindsVersion(versions, i);
      assert versions[i] in versions;
    }
    if CurrentKey(vault, name).Success? && AllUsable(vault, name, 64) {
      CurrentKeyIsUsable(vault, name);
    }
  }

  lemma {:induction false} CurrentKeyIsUsable(vault: Vault, name: string)
    requires WellFormedVault(vault) && CurrentKey(vault, name).Success? && AllUsable(vault, name, 64)
    ensures |CurrentKey(vault, name).value| == 64
  {
    var versions := vault[name].versions;
    var i :| 0 <= i < |versions| && versions[i].id == vault[name].current;
    FetchFindsVersion(versions, i);
    assert versions[i] in versions;
  }

  /** The openers are the enabled keys of the secret and those of the legacy secret, each with the
      cipher it is for, and no others; those of the secret come first. */
  lemma {:induction false} OpenersAreEnabledKeys(vault: Vault, name: string, legacy: string)
    requires Composed(vault, name, legacy).Success?
    ensures var openers := Composed(vault, name, legacy).value.openers;
            && (forall a :: a in openers <==> IsKeyOf(vault, name, AesKind, a) || IsKeyOf(vault, legacy, XChaChaKind, a))
            && (forall i, j :: 0 <= i < j < |openers| ==> openers[j].Aes? ==> openers[i].Aes?)
  {
    OpenersAreKeys(vault, name, AesKind);
    OpenersAreKeys(vault, legacy, XChaChaKind);
    var aes, chachas := OpenersFor(vault, name, AesKind).value, OpenersFor(vault, legacy, XChaChaKind).value;
    assert forall i :: 0 <= i < |aes| ==> aes[i] in aes;
    assert forall i :: 0 <= i < |chachas| ==> chachas[i] in chachas;
  }

  /** Over any history of rotations: what an earlier cipher sealed, a later one opens, provided
      the version that was current at sealing time is still enabled. */
  lemma {:induction false} LaterMultiOpens(cs: Ciphers, vaults: seq<Vault>, i: nat, j: nat, name: string, legacy: string,
                                           random: Bytes, plain: Bytes)
    requires Correct(cs) && RejectsOtherKeys(cs)
    requires History(vaults) && i <= j < |vaults|
    requires Composed(vaults[i], name, legacy).Success? && Composed(vaults[j], name, legacy).Success?
    requires StillEnabled(vaults[j], name, vaults[i][name].current)
    requires SealWith(cs, Composed(vaults[i], name, legacy).value.sealer, random, plain).Success?
    ensures Plaintext(cs, Composed(vaults[j], name, legacy).value,
                      SealWith(cs, Composed(vaults[i], name, legacy).value.sealer, random, plain).value) == Some(plain)
  {
    var id := vaults[i][name].current;
    var m, m' := Composed(vaults[i], name, legacy).value, Composed(vaults[j], name, legacy).value;
    HistoryKeeps(vaults, 0, i, name, id, None);
    SealerIsCurrent(vaults[i], name, legacy);
    HistoryKeeps(vaults, i, j, name, id, Some(m.sealer.key));
    EnabledVersionOpens(vaults[j], name, legacy, id, m.sealer.key);
    OpenersFindTheirCiphertext(cs, m', m.sealer, random, plain);
  }

  lemma {:induction false} EnabledVersionOpens(vault: Vault, name: string, legacy: string, id: nat, key: Bytes)
    requires WellFormedVault(vault) && Composed(vault, name, legacy).Success?
    requires Holds(vault, name, id, Some(key)) && StillEnabled(vault, name, id)
    ensures Aes(key) in Composed(vault, name, legacy).value.openers
  {
    EnabledHolderIsKey(vault, name, AesKind, id, key);
    OpenersAreEnabledKeys(vault, name, legacy);
  }

  lemma {:induction false} EnabledHolderIsKey(vault: Vault, name: string, kind: Kind, id: nat, key: Bytes)
    requires WellFormedVault(vault) && Holds(vault, name, id, Some(key)) && StillEnabled(vault, name, id)
    ensures IsKeyOf(vault, name, kind, AeadOf(kind, key))
  {
    var v :| v in vault[name].versions && v.id == id && v.value == Some(key);
    var w :| w in vault[name].versions && w.id == id && w.enabled;
    assert v == w;
  }

  /** What was sealed under a version of the legacy secret opens, at any later time, as long as that
      version is enabled. */
  lemma {:induction false} LegacySealedOpens(cs: Ciphers, vaults: seq<Vault>, i: nat, j: nat, name: string, legacy: string,
                                             id: nat, key: Bytes, random: Bytes, plain: Bytes)
    requires Correct(cs) && RejectsOtherKeys(cs)
    requires History(vaults) && i <= j < |vaults|
    requires Holds(vaults[i], legacy, id, Some(key)) && StillEnabled(vaults[j], legacy, id)
    requires Composed(vaults[j], name, legacy).Success?
    requires SealWith(cs, XChaCha(key), random, plain).Success?
    ensures Plaintext(cs, Composed(vaults[j], name, legacy).value, SealWith(cs, XChaCha(key), random, plain).value) == Some(plain)
  {
    HistoryKeeps(vaults, i, j, legacy, id, Some(key));
    EnabledHolderIsKey(vaults[j], legacy, XChaChaKind, id, key);
    OpenersAreEnabledKeys(vaults[j], name, legacy);
    OpenersFindTheirCiphertext(cs, Composed(vaults[j], name, legacy).value, XChaCha(key), random, plain);
  }
}
