/**
 The write-once persistence of the asset graph: `persistGraph` in `pkg/installer/graph.go` and
 `Exists`, `Save` and `LoadPersisted` in `pkg/cluster/graph/manager.go`.

 Two blobs are written without a transaction, the bootstrap ignition first and the sealed graph
 second.  Install attempts follow one another, each with its own freshly resolved graph; each
 may stop between any two calls, by an error or by a crash, and keys may rotate at any time.
 One upload is atomic, and there is one attempt at a time.
 */
module Persistence {
  import opened Wrappers
  import opened Base64
  import opened Encryption

  /** How graphs turn into bytes.  `P` is what reading a graph back yields. */
  datatype Codec<!G, !P> = Codec(
    bootstrap: G -> Bytes,
    marshal: G -> Option<Bytes>,
    unmarshal: Bytes -> Option<P>,
    view: G -> P)

  /** Reading back what was marshalled yields the graph's view. */
  ghost predicate RoundTrips<G(!new), P>(codec: Codec<G, P>) {
    forall g: G :: codec.marshal(g).Some? ==> codec.unmarshal(codec.marshal(g).value) == Some(codec.view(g))
  }

  datatype Blobs = Blobs(ignition: Option<Bytes>, graph: Option<Bytes>)

  datatype SaveError = StorageUnavailable | UploadFailed | MarshalFailed | SealFailed(cause: Encryption.Error)

  /** What the environment does to one external call: a failing upload may still have landed. */
  datatype Fault = Works | FailsBefore | FailsAfter

  /** The environment of one attempt: each call's fate, and the random bytes for the nonce. */
  datatype Weather = Weather(
    existsService: bool, lookup: bool,
    saveService: bool, ignition: Fault, random: Bytes, graph: Fault)

  // ---------------------------------------------------------------- the calls, as functions

  function AfterUpload(fault: Fault, before: Option<Bytes>, data: Bytes): Option<Bytes> {
    if fault.FailsBefore? then before else Some(data)
  }

  function SaveResult<G, P>(cs: Ciphers, codec: Codec<G, P>, m: Multi, g: G, w: Weather, b: Blobs): (Blobs, Status<SaveError>) {
    if !w.saveService then (b, Failed(StorageUnavailable))
    else
      var b1 := b.(ignition := AfterUpload(w.ignition, b.ignition, codec.bootstrap(g)));
      if !w.ignition.Works? then (b1, Failed(UploadFailed))
      else
        match codec.marshal(g)
        case None => (b1, Failed(MarshalFailed))
        case Some(json) =>
          match SealWith(cs, m.sealer, w.random, json)
          case Failure(e) => (b1, Failed(SealFailed(e)))
          case Success(sealed) =>
            var b2 := b1.(graph := AfterUpload(w.graph, b1.graph, sealed));
            (b2, if w.graph.Works? then Done else Failed(UploadFailed))
  }

  function PersistResult<G, P>(cs: Ciphers, codec: Codec<G, P>, m: Multi, g: G, w: Weather, b: Blobs): (Blobs, Status<SaveError>) {
    if !w.existsService || !w.lookup then (b, Failed(StorageUnavailable))
    else if b.graph.Some? then (b, Done)
    else SaveResult(cs, codec, m, g, w, b)
  }

  /** The graph blob is this graph, sealed by this cipher; the ignition blob is its bootstrap data. */
  ghost predicate StoredTogether<G, P>(cs: Ciphers, codec: Codec<G, P>, m: Multi, g: G, random: Bytes, b: Blobs) {
    && b.ignition == Some(codec.bootstrap(g))
    && b.graph.Some? && codec.marshal(g).Some?
    && SealWith(cs, m.sealer, random, codec.marshal(g).value) == Success(b.graph.value)
  }

  /** The storage account: the two blobs an attempt can touch. */
  class Account {
    var ignition: Option<Bytes>
    var graph: Option<Bytes>

    function Contents(): Blobs
      reads this
    {
      Blobs(ignition, graph)
    }

    constructor ()
      ensures Contents() == Blobs(None, None)
    {
      ignition, graph := None, None;
    }

    method UploadIgnition(data: Bytes, fault: Fault) returns (ok: bool)
      modifies this`ignition
      ensures ignition == AfterUpload(fault, old(ignition), data) && ok == fault.Works?
    {
      if !fault.FailsBefore? {
        ignition := Some(data);
      }
      ok := fault.Works?;
    }

    method UploadGraph(data: Bytes, fault: Fault) returns (ok: bool)
      modifies this`graph
      ensures graph == AfterUpload(fault, old(graph), data) && ok == fault.Works?
    {
      if !fault.FailsBefore? {
        graph := Some(data);
      }
      ok := fault.Works?;
    }

    method Exists(w: Weather) returns (r: Result<bool, SaveError>)
      ensures r == if w.existsService && w.lookup then Success(graph.Some?) else Failure(StorageUnavailable)
    {
      if !w.existsService || !w.lookup {
        return Failure(StorageUnavailable);
      }
      r := Success(graph.Some?);
    }

    /** The save succeeds exactly if every call works, and each failure has its own cause.  Each blob
        is this graph's as soon as its upload has landed; the graph's is not tried before the
        ignition's has worked.  Success, or as much as a changed graph blob, so means that both are. */
    method Save<G, P>(cs: Ciphers, codec: Codec<G, P>, m: Multi, g: G, w: Weather) returns (status: Status<SaveError>)
      modifies this
      ensures status.Done? <==>
                && w.saveService && w.ignition.Works? && codec.marshal(g).Some?
                && SealWith(cs, m.sealer, w.random, codec.marshal(g).value).Success? && w.graph.Works?
      ensures status == Failed(StorageUnavailable) <==> !w.saveService
      ensures status == Failed(MarshalFailed) <==> w.saveService && w.ignition.Works? && codec.marshal(g).None?
      ensures status.Failed? && status.error.SealFailed? <==>
                && w.saveService && w.ignition.Works? && codec.marshal(g).Some?
                && SealWith(cs, m.sealer, w.random, codec.marshal(g).value).Failure?
      ensures ignition == if w.saveService && !w.ignition.FailsBefore? then Some(codec.bootstrap(g)) else old(ignition)
      ensures graph == if w.saveService && w.ignition.Works? && codec.marshal(g).Some? && !w.graph.FailsBefore?
                          && SealWith(cs, m.sealer, w.random, codec.marshal(g).value).Success?
                       then Some(SealWith(cs, m.sealer, w.random, codec.marshal(g).value).value) else old(graph)
      ensures status.Done? ==> StoredTogether(cs, codec, m, g, w.random, Contents())
      ensures graph != old(graph) ==> StoredTogether(cs, codec, m, g, w.random, Contents())
      ensures (Contents(), status) == SaveResult(cs, codec, m, g, w, old(Contents()))
    {
      if !w.saveService {
        return Failed(StorageUnavailable);
      }
      var ok := UploadIgnition(codec.bootstrap(g), w.ignition);
      if !ok {
        return Failed(UploadFailed);
      }
      var json := codec.marshal(g);
      if json.None? {
        return Failed(MarshalFailed);
      }
      var sealed := SealWith(cs, m.sealer, w.random, json.value);
      if sealed.Failure? {
        return Failed(SealFailed(sealed.error));
      }
      ok := UploadGraph(sealed.value, w.graph);
      status := if ok then Done else Failed(UploadFailed);
    }

    /** Success means that a graph is stored: the one that was there, with nothing touched, or this
        one, with its own ignition beside it.  A stored graph is safe from every outcome. */
    method PersistGraph<G, P>(cs: Ciphers, codec: Codec<G, P>, m: Multi, g: G, w: Weather) returns (status: Status<SaveError>)
      modifies this
      ensures status.Done? ==> graph.Some?
      ensures old(graph).Some? ==> Contents() == old(Contents())
      ensures old(graph).None? && graph.Some? ==> StoredTogether(cs, codec, m, g, w.random, Contents())
      ensures ignition != old(ignition) ==> old(graph).None? && ignition == Some(codec.bootstrap(g))
      ensures old(graph).Some? ==> (status.Done? <==> w.existsService && w.lookup)
      ensures old(graph).None? ==>
                (status.Done? <==>
                  && w.existsService && w.lookup && w.saveService && w.ignition.Works? && codec.marshal(g).Some?
                  && SealWith(cs, m.sealer, w.random, codec.marshal(g).value).Success? && w.graph.Works?)
      ensures (Contents(), status) == PersistResult(cs, codec, m, g, w, old(Contents()))
    {
      var exists' := Exists(w);
      match exists'
      case Failure(e) => return Failed(e);
      case Success(present) =>
        if present {
          return Done;
        }
        status := Save(cs, codec, m, g, w);
    }

    /** A missing blob, a refused ciphertext and unreadable contents are all errors.  With no opener
        at all `Open` hands on nil bytes without an error; decoding then sees empty input. */
    method LoadPersisted<G, P>(cs: Ciphers, codec: Codec<G, P>, m: Multi) returns (r: Option<P>)
      ensures graph.None? ==> r.None?
      ensures graph.Some? ==> forall i: nat :: FirstAccepting(cs, m, graph.value, i) ==>
                r == codec.unmarshal(OpenWith(cs, m.openers[i], graph.value).value)
      ensures graph.Some? && m.openers != [] && r.Some? ==>
                exists i: nat :: FirstAccepting(cs, m, graph.value, i)
      ensures graph.Some? && m.openers == [] ==> r == codec.unmarshal([])
      ensures r == Loaded(cs, codec, m, graph)
    {
      if graph.None? {
        return None;
      }
      var plain := Encryption.Open(cs, m, graph.value);
      if plain.err.Some? {
        return None;
      }
      r := codec.unmarshal(if plain.bytes.Some? then plain.bytes.value else []);
    }
  }

  ghost function Loaded<G, P>(cs: Ciphers, codec: Codec<G, P>, m: Multi, graph: Option<Bytes>): Option<P> {
    match graph
    case None => None
    case Some(sealed) =>
      match Plaintext(cs, m, sealed)
      case Some(plain) => codec.unmarshal(plain)
      case None => if m.openers == [] then codec.unmarshal([]) else None
  }

  // ---------------------------------------------------------------- the protocol, step by step

  /** How far the current attempt has come. */
  datatype Attempt<G> =
    | NoAttempt
    | Configured(m: Multi, version: nat)                          // the cipher was composed
    | Resolved(m: Multi, version: nat, g: G)
    | Absent(m: Multi, version: nat, g: G)                        // the existence check said no
    | IgnitionStored(m: Multi, version: nat, g: G)
    | GraphSealed(m: Multi, version: nat, g: G, sealed: Bytes)

  /** Who wrote the graph blob: the graph, and the key version it was sealed under. */
  datatype Author<G> = Author(g: G, version: nat)

  datatype World<G> = World(blobs: Blobs, vault: Vault, attempt: Attempt<G>, author: Option<Author<G>>)

  datatype Names = Names(secret: string, legacy: string)

  datatype Event<G> =
    | Configure
    | Resolve(g: G)
    | CheckExists
    | PutIgnition
    | Seal(random: Bytes)
    | PutGraph
    | Stop                                                        // an error return or a crash
    | RotateKeys(step: VaultStep)

  ghost predicate CanHappen<G, P>(cs: Ciphers, codec: Codec<G, P>, n: Names, w: World<G>, e: Event<G>) {
    match e
    case Configure => w.attempt.NoAttempt? && Composed(w.vault, n.secret, n.legacy).Success?
    case Resolve(_) => w.attempt.Configured?
    case CheckExists => w.attempt.Resolved?
    case PutIgnition => w.attempt.Absent?
    case Seal(random) =>
      && w.attempt.IgnitionStored?
      && codec.marshal(w.attempt.g).Some?
      && SealWith(cs, w.attempt.m.sealer, random, codec.marshal(w.attempt.g).value).Success?
    case PutGraph => w.attempt.GraphSealed?
    case Stop => true
    case RotateKeys(step) => CanRotate(w.vault, step)
  }

  ghost function Happens<G, P>(cs: Ciphers, codec: Codec<G, P>, n: Names, w: World<G>, e: Event<G>): World<G>
    requires CanHappen(cs, codec, n, w, e)
  {
    match e
    case Configure =>
      w.(attempt := Configured(Composed(w.vault, n.secret, n.legacy).value, w.vault[n.secret].current))
    case Resolve(g) =>
      w.(attempt := Resolved(w.attempt.m, w.attempt.version, g))
    case CheckExists =>
      if w.blobs.graph.Some? then w.(attempt := NoAttempt)
      else w.(attempt := Absent(w.attempt.m, w.attempt.version, w.attempt.g))
    case PutIgnition =>
      w.(blobs := w.blobs.(ignition := Some(codec.bootstrap(w.attempt.g))),
         attempt := IgnitionStored(w.attempt.m, w.attempt.version, w.attempt.g))
    case Seal(random) =>
      w.(attempt := GraphSealed(w.attempt.m, w.attempt.version, w.attempt.g,
                                SealWith(cs, w.attempt.m.sealer, random, codec.marshal(w.attempt.g).value).value))
    case PutGraph =>
      w.(blobs := w.blobs.(graph := Some(w.attempt.sealed)),
         attempt := NoAttempt,
         author := Some(Author(w.attempt.g, w.attempt.version)))
    case Stop => w.(attempt := NoAttempt)
    case RotateKeys(step) => w.(vault := Rotate(w.vault, step))
  }

  ghost predicate Next<G(!new), P>(cs: Ciphers, codec: Codec<G, P>, n: Names, w: World<G>, w': World<G>) {
    exists e :: CanHappen(cs, codec, n, w, e) && w' == Happens(cs, codec, n, w, e)
  }

  ghost predicate Initial<G>(w: World<G>) {
    w.blobs == Blobs(None, None) && w.attempt.NoAttempt? && w.author.None? && WellFormedVault(w.vault)
  }

  ghost predicate IsRun<G(!new), P>(cs: Ciphers, codec: Codec<G, P>, n: Names, run: seq<World<G>>) {
    && run != []
    && Initial(run[0])
    && (forall i, j :: 0 <= i && j == i + 1 && j < |run| ==> Next(cs, codec, n, run[i], run[j]))
  }

  // ---------------------------------------------------------------- what every run keeps

  /** A sealer built from this version of the secret. */
  ghost predicate SealerOf(vault: Vault, n: Names, m: Multi, version: nat) {
    m.sealer.Aes? && Holds(vault, n.secret, version, Some(m.sealer.key))
  }

  ghost predicate SealedBy<G, P>(cs: Ciphers, codec: Codec<G, P>, vault: Vault, n: Names,
                                 g: G, version: nat, sealed: Bytes) {
    exists key, random ::
      && Holds(vault, n.secret, version, Some(key))
      && codec.marshal(g).Some?
      && SealWith(cs, Aes(key), random, codec.marshal(g).value) == Success(sealed)
  }

  ghost predicate AttemptOk<G, P>(cs: Ciphers, codec: Codec<G, P>, n: Names, w: World<G>) {
    && (!w.attempt.NoAttempt? ==> SealerOf(w.vault, n, w.attempt.m, w.attempt.version))
    && (w.attempt.Absent? || w.attempt.IgnitionStored? || w.attempt.GraphSealed? ==> w.blobs.graph.None?)
    && (w.attempt.IgnitionStored? || w.attempt.GraphSealed? ==>
          w.blobs.ignition == Some(codec.bootstrap(w.attempt.g)))
    && (w.attempt.GraphSealed? ==>
          SealedBy(cs, codec, w.vault, n, w.attempt.g, w.attempt.version, w.attempt.sealed))
  }

  ghost predicate StoreOk<G, P>(cs: Ciphers, codec: Codec<G, P>, n: Names, w: World<G>) {
    match w.author
    case None => w.blobs.graph.None?
    case Some(a) =>
      && w.blobs.graph.Some?
      && w.blobs.ignition == Some(codec.bootstrap(a.g))
      && SealedBy(cs, codec, w.vault, n, a.g, a.version, w.blobs.graph.value)
  }

  ghost predicate Inv<G, P>(cs: Ciphers, codec: Codec<G, P>, n: Names, w: World<G>) {
    WellFormedVault(w.vault) && AttemptOk(cs, codec, n, w) && StoreOk(cs, codec, n, w)
  }

  lemma {:induction false} RotationKeepsSealed<G, P>(cs: Ciphers, codec: Codec<G, P>, vault: Vault, step: VaultStep, n: Names,
                                                     g: G, version: nat, sealed: Bytes)
    requires WellFormedVault(vault) && CanRotate(vault, step)
    requires SealedBy(cs, codec, vault, n, g, version, sealed)
    ensures SealedBy(cs, codec, Rotate(vault, step), n, g, version, sealed)
  {
    var key, random :| Holds(vault, n.secret, version, Some(key)) && codec.marshal(g).Some?
                       && SealWith(cs, Aes(key), random, codec.marshal(g).value) == Success(sealed);
    RotationKeeps(vault, step, n.secret, version, Some(key));
  }

  lemma {:induction false} RotateKeepsInv<G, P>(cs: Ciphers, codec: Codec<G, P>, n: Names, w: World<G>, step: VaultStep)
    requires Inv(cs, codec, n, w) && CanRotate(w.vault, step)
    ensures Inv(cs, codec, n, w.(vault := Rotate(w.vault, step)))
  {
    RotationKeeps(w.vault, step, "", 0, None);
    if !w.attempt.NoAttempt? {
      RotationKeeps(w.vault, step, n.secret, w.attempt.version, Some(w.attempt.m.sealer.key));
    }
    if w.attempt.GraphSealed? {
      RotationKeepsSealed(cs, codec, w.vault, step, n, w.attempt.g, w.attempt.version, w.attempt.sealed);
    }
    if w.author.Some? {
      RotationKeepsSealed(cs, codec, w.vault, step, n, w.author.value.g, w.author.value.version, w.blobs.graph.value);
    }
  }

  lemma {:induction false} EventKeepsInv<G, P>(cs: Ciphers, codec: Codec<G, P>, n: Names, w: World<G>, e: Event<G>)
    requires Inv(cs, codec, n, w) && CanHappen(cs, codec, n, w, e)
    ensures Inv(cs, codec, n, Happens(cs, codec, n, w, e))
  {
    match e
    case Configure => SealerIsCurrent(w.vault, n.secret, n.legacy);
    case RotateKeys(step) => RotateKeepsInv(cs, codec, n, w, step);
    case _ =>
  }

  lemma {:induction false} LastEvent<G(!new), P>(cs: Ciphers, codec: Codec<G, P>, n: Names, run: seq<World<G>>, k: nat)
      returns (e: Event<G>)
    requires IsRun(cs, codec, n, run) && 0 < k < |run|
    ensures CanHappen(cs, codec, n, run[k - 1], e) && run[k] == Happens(cs, codec, n, run[k - 1], e)
  {
    assert Next(cs, codec, n, run[k - 1], run[k]);
    e :| CanHappen(cs, codec, n, run[k - 1], e) && run[k] == Happens(cs, codec, n, run[k - 1], e);
  }

  lemma {:induction false} EventKeepsStored<G, P>(cs: Ciphers, codec: Codec<G, P>, n: Names, w: World<G>, e: Event<G>)
    requires Inv(cs, codec, n, w) && CanHappen(cs, codec, n, w, e) && w.blobs.graph.Some?
    ensures Happens(cs, codec, n, w, e).blobs == w.blobs && Happens(cs, codec, n, w, e).author == w.author
  {
  }

  lemma {:induction false} RunKeepsInv<G(!new), P>(cs: Ciphers, codec: Codec<G, P>, n: Names, run: seq<World<G>>, k: nat)
    requires IsRun(cs, codec, n, run) && k < |run|
    ensures Inv(cs, codec, n, run[k])
  {
    if k > 0 {
      RunKeepsInv(cs, codec, n, run, k - 1);
      var e := LastEvent(cs, codec, n, run, k);
      EventKeepsInv(cs, codec, n, run[k - 1], e);
    }
  }

  /** In every state of every run, a graph blob is a sealed copy of some attempt's graph, and it
      is accompanied by the ignition of that very graph. */
  lemma {:induction false} StoredBlobsBelongTogether<G(!new), P>(cs: Ciphers, codec: Codec<G, P>, n: Names,
                                                                 run: seq<World<G>>, k: nat)
    requires IsRun(cs, codec, n, run) && k < |run| && run[k].blobs.graph.Some?
    ensures exists g, version ::
              && run[k].author == Some(Author(g, version))
              && run[k].blobs.ignition == Some(codec.bootstrap(g))
              && SealedBy(cs, codec, run[k].vault, n, g, version, run[k].blobs.graph.value)
  {
    RunKeepsInv(cs, codec, n, run, k);
    var a := run[k].author.value;
    assert run[k].author == Some(Author(a.g, a.version));
  }

  /** Once a graph is stored, no later attempt, crash or rotation changes either blob. */
  lemma {:induction false} StoredGraphIsFrozen<G(!new), P>(cs: Ciphers, codec: Codec<G, P>, n: Names,
                                                           run: seq<World<G>>, i: nat, j: nat)
    requires IsRun(cs, codec, n, run) && i <= j < |run| && run[i].blobs.graph.Some?
    ensures run[j].blobs == run[i].blobs && run[j].author == run[i].author
    decreases j
  {
    if i < j {
      StoredGraphIsFrozen(cs, codec, n, run, i, j - 1);
      RunKeepsInv(cs, codec, n, run, j - 1);
      var e := LastEvent(cs, codec, n, run, j);
      EventKeepsStored(cs, codec, n, run[j - 1], e);
    }
  }

  /** Whenever a graph is stored and the key version it was sealed under is still enabled, a
      process started now reads back exactly that graph, the one whose ignition is stored. */
  lemma {:induction false} LoadReturnsTheStoredGraph<G(!new), P>(cs: Ciphers, codec: Codec<G, P>, n: Names, run: seq<World<G>>, k: nat)
    requires Correct(cs) && RejectsOtherKeys(cs) && RoundTrips(codec)
    requires IsRun(cs, codec, n, run) && k < |run| && run[k].blobs.graph.Some?
    requires Composed(run[k].vault, n.secret, n.legacy).Success?
    requires run[k].author.Some? && StillEnabled(run[k].vault, n.secret, run[k].author.value.version)
    ensures var w, g := run[k], run[k].author.value.g;
            && Loaded(cs, codec, Composed(w.vault, n.secret, n.legacy).value, w.blobs.graph) == Some(codec.view(g))
            && w.blobs.ignition == Some(codec.bootstrap(g))
  {
    RunKeepsInv(cs, codec, n, run, k);
    var w, a := run[k], run[k].author.value;
    var key, random :| Holds(w.vault, n.secret, a.version, Some(key)) && codec.marshal(a.g).Some?
                       && SealWith(cs, Aes(key), random, codec.marshal(a.g).value) == Success(w.blobs.graph.value);
    EnabledVersionOpens(w.vault, n.secret, n.legacy, a.version, key);
    OpenersFindTheirCiphertext(cs, Composed(w.vault, n.secret, n.legacy).value, Aes(key), random, codec.marshal(a.g).value);
  }

  // ---------------------------------------------------------------- the code takes only these steps

  ghost predicate Playable<G, P>(cs: Ciphers, codec: Codec<G, P>, n: Names, w: World<G>, es: seq<Event<G>>)
    decreases |es|
  {
    es == [] || (CanHappen(cs, codec, n, w, es[0]) && Playable(cs, codec, n, Happens(cs, codec, n, w, es[0]), es[1..]))
  }

  ghost function Played<G, P>(cs: Ciphers, codec: Codec<G, P>, n: Names, w: World<G>, es: seq<Event<G>>): World<G>
    requires Playable(cs, codec, n, w, es)
    decreases |es|
  {
    if es == [] then w else Played(cs, codec, n, Happens(cs, codec, n, w, es[0]), es[1..])
  }

  lemma {:induction false} PlayFirst<G, P>(cs: Ciphers, codec: Codec<G, P>, n: Names, w: World<G>, e: Event<G>, es: seq<Event<G>>)
    requires CanHappen(cs, codec, n, w, e) && Playable(cs, codec, n, Happens(cs, codec, n, w, e), es)
    ensures Playable(cs, codec, n, w, [e] + es)
    ensures Played(cs, codec, n, w, [e] + es) == Played(cs, codec, n, Happens(cs, codec, n, w, e), es)
  {
    assert ([e] + es)[1..] == es;
  }

  /** What the seal-and-upload half of `Save` amounts to once the ignition is stored. */
  ghost function GraphEvents<G, P>(cs: Ciphers, codec: Codec<G, P>, m: Multi, g: G, w: Weather): seq<Event<G>> {
    if codec.marshal(g).None? || SealWith(cs, m.sealer, w.random, codec.marshal(g).value).Failure? then [Stop]
    else if w.graph.FailsBefore? then [Seal(w.random)] + [Stop]
    else [Seal(w.random)] + [PutGraph]
  }

  ghost function SaveEvents<G, P>(cs: Ciphers, codec: Codec<G, P>, m: Multi, g: G, w: Weather): seq<Event<G>> {
    if !w.saveService || w.ignition.FailsBefore? then [Stop]
    else if w.ignition.FailsAfter? then [PutIgnition] + [Stop]
    else [PutIgnition] + GraphEvents(cs, codec, m, g, w)
  }

  /** The events one call of `persistGraph` amounts to, in the weather it meets. */
  ghost function PersistEvents<G, P>(cs: Ciphers, codec: Codec<G, P>, m: Multi, g: G, w: Weather, b: Blobs): seq<Event<G>> {
    if !w.existsService || !w.lookup then [Stop]
    else if b.graph.Some? then [CheckExists]
    else [CheckExists] + SaveEvents(cs, codec, m, g, w)
  }

  lemma {:induction false} PlayLast<G, P>(cs: Ciphers, codec: Codec<G, P>, n: Names, w: World<G>, e: Event<G>)
    requires CanHappen(cs, codec, n, w, e)
    ensures Playable(cs, codec, n, w, [e])
    ensures Played(cs, codec, n, w, [e]) == Happens(cs, codec, n, w, e)
  {
    assert [e][1..] == [];
  }

  lemma {:induction false} GraphHalfFollowsProtocol<G, P>(cs: Ciphers, codec: Codec<G, P>, n: Names, w: World<G>, weather: Weather)
    requires w.attempt.IgnitionStored? && weather.saveService && weather.ignition.Works?
    requires w.blobs.ignition == Some(codec.bootstrap(w.attempt.g))
    ensures var es := GraphEvents(cs, codec, w.attempt.m, w.attempt.g, weather);
            && Playable(cs, codec, n, w, es)
            && var w' := Played(cs, codec, n, w, es);
               && w'.attempt.NoAttempt? && w'.vault == w.vault
               && w'.blobs == SaveResult(cs, codec, w.attempt.m, w.attempt.g, weather, w.blobs).0
  {
    var m, g := w.attempt.m, w.attempt.g;
    if codec.marshal(g).None? || SealWith(cs, m.sealer, weather.random, codec.marshal(g).value).Failure? {
      PlayLast(cs, codec, n, w, Stop);
    } else {
      var e, last := Event.Seal(weather.random), if weather.graph.FailsBefore? then Stop else PutGraph;
      PlayLast(cs, codec, n, Happens(cs, codec, n, w, e), last);
      PlayFirst(cs, codec, n, w, e, [last]);
    }
  }

  lemma {:induction false} SaveFollowsProtocol<G, P>(cs: Ciphers, codec: Codec<G, P>, n: Names, w: World<G>, weather: Weather)
    requires w.attempt.Absent?
    ensures var es := SaveEvents(cs, codec, w.attempt.m, w.attempt.g, weather);
            && Playable(cs, codec, n, w, es)
            && var w' := Played(cs, codec, n, w, es);
               && w'.attempt.NoAttempt? && w'.vault == w.vault
               && w'.blobs == SaveResult(cs, codec, w.attempt.m, w.attempt.g, weather, w.blobs).0
  {
    if !weather.saveService || weather.ignition.FailsBefore? {
      PlayLast(cs, codec, n, w, Stop);
    } else {
      var stored := Happens(cs, codec, n, w, PutIgnition);
      if weather.ignition.FailsAfter? {
        PlayLast(cs, codec, n, stored, Stop);
        PlayFirst(cs, codec, n, w, PutIgnition, [Stop]);
      } else {
        GraphHalfFollowsProtocol(cs, codec, n, stored, weather);
        PlayFirst(cs, codec, n, w, PutIgnition, GraphEvents(cs, codec, w.attempt.m, w.attempt.g, weather));
      }
    }
  }

  /** Every outcome of `persistGraph`, in any weather, is a path of the protocol from the point
      where the graph has been resolved to the end of the attempt; success means a graph is stored. */
  lemma {:induction false} PersistGraphFollowsProtocol<G, P>(cs: Ciphers, codec: Codec<G, P>, n: Names, w: World<G>, weather: Weather)
    requires w.attempt.Resolved?
    ensures var es := PersistEvents(cs, codec, w.attempt.m, w.attempt.g, weather, w.blobs);
            && Playable(cs, codec, n, w, es)
            && var w' := Played(cs, codec, n, w, es);
               && w'.attempt.NoAttempt? && w'.vault == w.vault
               && w'.blobs == PersistResult(cs, codec, w.attempt.m, w.attempt.g, weather, w.blobs).0
    ensures PersistResult(cs, codec, w.attempt.m, w.attempt.g, weather, w.blobs).1.Done? ==>
              PersistResult(cs, codec, w.attempt.m, w.attempt.g, weather, w.blobs).0.graph.Some?
  {
    if !weather.existsService || !weather.lookup {
      PlayLast(cs, codec, n, w, Stop);
    } else if w.blobs.graph.Some? {
      PlayLast(cs, codec, n, w, CheckExists);
    } else {
      var absent := Happens(cs, codec, n, w, CheckExists);
      SaveFollowsProtocol(cs, codec, n, absent, weather);
      PlayFirst(cs, codec, n, w, CheckExists, SaveEvents(cs, codec, w.attempt.m, w.attempt.g, weather));
    }
  }
}
