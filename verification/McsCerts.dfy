/**
 `updateMCSCertKey` of `pkg/installer/regenerate_mcs_certs.go`: the machine-config-server key and
 certificate are replaced, in place, in up to three kinds of files of the bootstrap ignition.

 Generating the pair is a parameter.  So are reading and writing the secret's YAML; what is
 assumed of them is that reading undoes writing.
 */
module McsCerts {
  import opened Wrappers
  import opened Base64
  import opened KeyedList
  import opened StorageFiles

  const SECRET_PATH := "/opt/openshift/manifests/machine-config-server-tls-secret.yaml"
  const KEY_PATH := "/opt/openshift/tls/machine-config-server.key"
  const CERT_PATH := "/opt/openshift/tls/machine-config-server.crt"

  /** RFC 2397: the media type, then one comma, then the data. */
  const HEADER_STEM := "data:text/plain;charset=utf-8;base64"
  const HEADER := HEADER_STEM + ","

  const TLS_CERT := "tls.crt"
  const TLS_KEY := "tls.key"

  datatype KeyPair = KeyPair(key: Bytes, cert: Bytes)

  /** `data` is None for a secret without a data section: writing into that map panics. */
  datatype Secret = Secret(data: Option<map<string, Bytes>>, rest: string)

  /** The base64 alphabet (the standard one in the source), and the secret's YAML form. */
  datatype SecretCodec = SecretCodec(alphabet: Alphabet, marshal: Secret -> Option<Bytes>, unmarshal: Bytes -> Option<Secret>)

  ghost predicate RoundTrips(codec: SecretCodec) {
    IsAlphabet(codec.alphabet) &&
    forall s :: codec.marshal(s).Some? ==> codec.unmarshal(codec.marshal(s).value) == Some(s)
  }

  datatype Error = GenerateFailed | DecodeFailed | UnmarshalFailed | MarshalFailed | Panic

  // ---------------------------------------------------------------- splitting at commas

  function IndexOfComma(s: string): (i: nat)
    ensures i <= |s|
    ensures i < |s| ==> s[i] == ','
    ensures forall j :: 0 <= j < i ==> s[j] != ','
  {
    if s == "" || s[0] == ',' then 0 else 1 + IndexOfComma(s[1..])
  }

  /** `strings.Split(s, ",")`. */
  function Split(s: string): (parts: seq<string>)
    ensures |parts| >= 1
    decreases |s|
  {
    var i := IndexOfComma(s);
    if i == |s| then [s] else [s[..i]] + Split(s[i + 1..])
  }

  lemma {:induction false} IndexOfCommaAfter(stem: string, rest: string)
    requires forall i :: 0 <= i < |stem| ==> stem[i] != ','
    ensures IndexOfComma(stem + "," + rest) == |stem|
  {
    var s := stem + "," + rest;
    assert s[|stem|] == ',';
    assert forall i :: 0 <= i < |stem| ==> s[i] == stem[i];
  }

  /** Behind a header with one comma, a text without commas is the second part. */
  lemma {:induction false} SplitsIntoTwo(stem: string, rest: string)
    requires forall i :: 0 <= i < |stem| ==> stem[i] != ','
    requires forall i :: 0 <= i < |rest| ==> rest[i] != ','
    ensures Split(stem + "," + rest) == [stem, rest]
  {
    var s := stem + "," + rest;
    IndexOfCommaAfter(stem, rest);
    assert s[..|stem|] == stem && s[|stem| + 1..] == rest;
  }

  /** The header holds no comma but its last character. */
  lemma {:induction false} HeaderStemHasNoComma()
    ensures forall i :: 0 <= i < |HEADER_STEM| ==> HEADER_STEM[i] != ','
  {
  }

  function Encoded(a: Alphabet, b: Bytes): string {
    HEADER + EncodeWith(a, b)
  }

  /** What the source reads out of a data URL: the second comma-separated part, decoded. */
  function Decoded(a: Alphabet, source: string): Option<Bytes> {
    if |Split(source)| < 2 then None else DecodeWith(a, Split(source)[1])
  }

  lemma {:induction false} DecodedUndoesEncoded(a: Alphabet, b: Bytes)
    requires IsAlphabet(a)
    ensures |Split(Encoded(a, b))| == 2 && Decoded(a, Encoded(a, b)) == Some(b)
  {
    HeaderStemHasNoComma();
    EncodingIsPlain(a, b);
    SplitsIntoTwo(HEADER_STEM, EncodeWith(a, b));
    DecodeUndoesEncode(a, b);
  }

  /** In particular with the alphabet that the source uses. */
  lemma {:induction false} StandardDecodedUndoesEncoded(b: Bytes)
    ensures |Split(Encoded(STANDARD, b))| == 2 && Decoded(STANDARD, Encoded(STANDARD, b)) == Some(b)
  {
    StandardIsAlphabet();
    DecodedUndoesEncoded(STANDARD, b);
  }

  // ---------------------------------------------------------------- one file, all files

  function WithPair(s: Secret, pair: KeyPair): Secret
    requires s.data.Some?
  {
    s.(data := Some(s.data.value[TLS_CERT := pair.cert][TLS_KEY := pair.key]))
  }

  /** The new source of a secret file, or how the code stops at it. */
  function UpdatedSecret(codec: SecretCodec, source: Option<string>, pair: KeyPair): Result<string, Error> {
    if source.None? || |Split(source.value)| < 2 then Failure(Panic)
    else
      match DecodeWith(codec.alphabet, Split(source.value)[1])
      case None => Failure(DecodeFailed)
      case Some(raw) =>
        match codec.unmarshal(raw)
        case None => Failure(UnmarshalFailed)
        case Some(s) =>
          if s.data.None? then Failure(Panic)
          else
            match codec.marshal(WithPair(s, pair))
            case None => Failure(MarshalFailed)
            case Some(contents) => Success(Encoded(codec.alphabet, contents))
  }

  function UpdatedSource(codec: SecretCodec, f: File, pair: KeyPair): Result<Option<string>, Error> {
    if f.key == SECRET_PATH then
      match UpdatedSecret(codec, f.body.source, pair)
      case Failure(e) => Failure(e)
      case Success(source) => Success(Some(source))
    else if f.key == KEY_PATH then Success(Some(Encoded(codec.alphabet, pair.key)))
    else if f.key == CERT_PATH then Success(Some(Encoded(codec.alphabet, pair.cert)))
    else Success(f.body.source)
  }

  function WithSource(f: File, source: Option<string>): File {
    f.(body := f.body.(source := source))
  }

  /** File after file; the first failure leaves the rest as it was. */
  function UpdateAll(codec: SecretCodec, files: seq<File>, pair: KeyPair): (seq<File>, Status<Error>)
    decreases |files|
  {
    if files == [] then (files, Done)
    else
      match UpdatedSource(codec, files[0], pair)
      case Failure(e) => (files, Failed(e))
      case Success(source) =>
        var (rest, status) := UpdateAll(codec, files[1..], pair);
        ([WithSource(files[0], source)] + rest, status)
  }

  function Update(codec: SecretCodec, files: seq<File>, apiIntIP: string, generated: Option<KeyPair>): (seq<File>, Status<Error>) {
    if |apiIntIP| == 0 then (files, Done)
    else if generated.None? then (files, Failed(GenerateFailed))
    else UpdateAll(codec, files, generated.value)
  }

  // ---------------------------------------------------------------- what an update achieves

  /** The secret a source holds. */
  function SecretOf(codec: SecretCodec, source: Option<string>): Option<Secret> {
    if source.None? || Decoded(codec.alphabet, source.value).None? then None else codec.unmarshal(Decoded(codec.alphabet, source.value).value)
  }

  /** f' is f, carrying this key pair if it is one of the three kinds of files. */
  ghost predicate Carries(codec: SecretCodec, f: File, f': File, pair: KeyPair) {
    && f'.key == f.key
    && f'.body == f.body.(source := f'.body.source)
    && (f.key == KEY_PATH ==> f'.body.source.Some? && Decoded(codec.alphabet, f'.body.source.value) == Some(pair.key))
    && (f.key == CERT_PATH ==> f'.body.source.Some? && Decoded(codec.alphabet, f'.body.source.value) == Some(pair.cert))
    && (f.key == SECRET_PATH ==>
          var s, s' := SecretOf(codec, f.body.source), SecretOf(codec, f'.body.source);
          && s.Some? && s.value.data.Some?
          && s'.Some? && s'.value.data.Some? && s'.value.rest == s.value.rest
          && s'.value.data.value == s.value.data.value[TLS_CERT := pair.cert][TLS_KEY := pair.key])
    && (f.key !in [KEY_PATH, CERT_PATH, SECRET_PATH] ==> f' == f)
  }

  lemma {:induction false} UpdatedFileCarries(codec: SecretCodec, f: File, pair: KeyPair)
    requires RoundTrips(codec) && UpdatedSource(codec, f, pair).Success?
    ensures Carries(codec, f, WithSource(f, UpdatedSource(codec, f, pair).value), pair)
  {
    DecodedUndoesEncoded(codec.alphabet, pair.key);
    DecodedUndoesEncoded(codec.alphabet, pair.cert);
    if f.key == SECRET_PATH {
      var s := codec.unmarshal(Decoded(codec.alphabet, f.body.source.value).value).value;
      DecodedUndoesEncoded(codec.alphabet, codec.marshal(WithPair(s, pair)).value);
    }
  }

  /** After a successful update every file of the three kinds carries one and the same pair;
      no path, no position, no other attribute and no other file has changed. */
  lemma {:induction false} UpdateInstallsOnePair(codec: SecretCodec, files: seq<File>, pair: KeyPair)
    requires RoundTrips(codec) && UpdateAll(codec, files, pair).1.Done?
    ensures var r := UpdateAll(codec, files, pair).0;
            |r| == |files| && forall i :: 0 <= i < |files| ==> Carries(codec, files[i], r[i], pair)
    decreases |files|
  {
    if files != [] {
      UpdatedFileCarries(codec, files[0], pair);
      UpdateInstallsOnePair(codec, files[1..], pair);
      assert forall i :: 1 <= i < |files| ==> files[i] == files[1..][i - 1];
    }
  }

  /** Whether a secret file can be read, and written back with the pair in it. */
  ghost predicate Renewable(codec: SecretCodec, f: File, pair: KeyPair) {
    f.key == SECRET_PATH ==>
      var s := SecretOf(codec, f.body.source);
      s.Some? && s.value.data.Some? && codec.marshal(WithPair(s.value, pair)).Some?
  }

  /** Exactly when an update can go through: every secret file can be read and written back. */
  lemma {:induction false} UpdateSucceedsIff(codec: SecretCodec, files: seq<File>, pair: KeyPair)
    ensures UpdateAll(codec, files, pair).1.Done? <==> forall i :: 0 <= i < |files| ==> Renewable(codec, files[i], pair)
    decreases |files|
  {
    if files != [] {
      UpdateSucceedsIff(codec, files[1..], pair);
      assert forall i :: 1 <= i < |files| ==> files[i] == files[1..][i - 1];
      assert forall i :: 0 <= i < |files[1..]| ==> files[1..][i] == files[i + 1];
    }
  }

  /** The whole renewal: without an API address nothing is done, and that is a success.  With one, it
      succeeds exactly if a pair was generated and every secret file is renewable, and then every file
      of the three kinds carries the pair. */
  lemma {:induction false} RenewalOutcome(codec: SecretCodec, files: seq<File>, apiIntIP: string, generated: Option<KeyPair>)
    requires RoundTrips(codec)
    ensures var (r, status) := Update(codec, files, apiIntIP, generated);
            && (apiIntIP == "" ==> r == files && status.Done?)
            && (apiIntIP != "" ==>
                  (status.Done? <==> generated.Some? && forall i :: 0 <= i < |files| ==> Renewable(codec, files[i], generated.value)))
            && (apiIntIP != "" && generated.None? ==> r == files)
            && (apiIntIP != "" && status.Done? ==>
                  |r| == |files| && forall i :: 0 <= i < |files| ==> Carries(codec, files[i], r[i], generated.value))
  {
    if apiIntIP != "" && generated.Some? {
      UpdateSucceedsIff(codec, files, generated.value);
      if UpdateAll(codec, files, generated.value).1.Done? {
        UpdateInstallsOnePair(codec, files, generated.value);
      }
    }
  }

  lemma {:induction false} LaterSourceWins(codec: SecretCodec, f: File, first: KeyPair, second: KeyPair)
    requires RoundTrips(codec) && UpdatedSource(codec, f, first).Success?
    ensures UpdatedSource(codec, WithSource(f, UpdatedSource(codec, f, first).value), second)
         == UpdatedSource(codec, f, second)
  {
    if f.key == SECRET_PATH {
      var s := codec.unmarshal(Decoded(codec.alphabet, f.body.source.value).value).value;
      DecodedUndoesEncoded(codec.alphabet, codec.marshal(WithPair(s, first)).value);
      assert WithPair(WithPair(s, first), second) == WithPair(s, second) by {
        var d := s.data.value;
        assert d[TLS_CERT := first.cert][TLS_KEY := first.key][TLS_CERT := second.cert][TLS_KEY := second.key]
            == d[TLS_CERT := second.cert][TLS_KEY := second.key];
      }
    }
  }

  /** A later update fully supersedes an earlier one: it ends the same way, and when it succeeds
      nothing of the earlier pair is left. */
  lemma {:induction false} LaterUpdateSupersedes(codec: SecretCodec, files: seq<File>, first: KeyPair, second: KeyPair)
    requires RoundTrips(codec) && UpdateAll(codec, files, first).1.Done?
    ensures var again, direct := UpdateAll(codec, UpdateAll(codec, files, first).0, second), UpdateAll(codec, files, second);
            again.1 == direct.1 && (direct.1.Done? ==> again.0 == direct.0)
    decreases |files|
  {
    if files != [] {
      LaterSourceWins(codec, files[0], first, second);
      LaterUpdateSupersedes(codec, files[1..], first, second);
      var once := UpdateAll(codec, files, first).0;
      assert once[1..] == UpdateAll(codec, files[1..], first).0;
    }
  }

  // ---------------------------------------------------------------- the code, in place

  method UpdateMCSCertKey(codec: SecretCodec, files: array<File>, apiIntIP: string, generated: Option<KeyPair>)
      returns (status: Status<Error>)
    modifies files
    ensures (files[..], status) == Update(codec, old(files[..]), apiIntIP, generated)
  {
    if |apiIntIP| == 0 {
      return Done;
    }
    if generated.None? {
      return Failed(GenerateFailed);
    }
    status := UpdateFiles(codec, files, generated.value);
  }

  method UpdateFiles(codec: SecretCodec, files: array<File>, pair: KeyPair) returns (status: Status<Error>)
    modifies files
    ensures (files[..], status) == UpdateAll(codec, old(files[..]), pair)
  {
    ghost var whole := UpdateAll(codec, files[..], pair);
    assert files[0..] == files[..];
    var i := 0;
    status := Done;
    while i < files.Length
      invariant i <= files.Length && status.Done?
      invariant Completes(whole, files[..i], UpdateAll(codec, files[i..], pair))
    {
      status := UpdateFile(codec, files, i, pair, whole);
      if status.Failed? {
        return;
      }
      i := i + 1;
    }
    assert files[files.Length..] == [];
    assert files[..files.Length] + [] == files[..];
  }

  /** One file of the loop: where it stops, the whole update has stopped. */
  method UpdateFile(codec: SecretCodec, files: array<File>, i: nat, pair: KeyPair, ghost whole: (seq<File>, Status<Error>))
      returns (status: Status<Error>)
    requires i < files.Length && Completes(whole, files[..i], UpdateAll(codec, files[i..], pair))
    modifies files
    ensures match status
            case Failed(_) => whole == (files[..], status)
            case Done => Completes(whole, files[..i + 1], UpdateAll(codec, files[i + 1..], pair))
  {
    ghost var before, after := files[..i], files[i + 1..];
    assert files[i..] == [files[i]] + after && files[..] == before + files[i..];
    UpdateStep(codec, whole, before, files[i], after, pair);
    var source := UpdatedSource(codec, files[i], pair);
    if source.Failure? {
      return Failed(source.error);
    }
    files[i] := WithSource(files[i], source.value);
    assert files[..i + 1] == before + [files[i]] && files[i + 1..] == after;
    status := Done;
  }

  lemma {:induction false} UpdateStep(codec: SecretCodec, whole: (seq<File>, Status<Error>),
                                      before: seq<File>, f: File, after: seq<File>, pair: KeyPair)
    requires Completes(whole, before, UpdateAll(codec, [f] + after, pair))
    ensures match UpdatedSource(codec, f, pair)
            case Failure(e) => whole == (before + ([f] + after), Failed(e))
            case Success(source) => Completes(whole, before + [WithSource(f, source)], UpdateAll(codec, after, pair))
  {
    UpdateAllUnfolds(codec, [f] + after, f, after, pair);
    var source := UpdatedSource(codec, f, pair);
    if source.Success? {
      CompletesNext(whole, before, WithSource(f, source.value), UpdateAll(codec, after, pair));
    }
  }

  lemma {:induction false} UpdateAllUnfolds(codec: SecretCodec, files: seq<File>, f: File, rest: seq<File>, pair: KeyPair)
    requires files == [f] + rest
    ensures UpdateAll(codec, files, pair)
         == match UpdatedSource(codec, f, pair)
            case Failure(e) => (files, Failed(e))
            case Success(source) => ([WithSource(f, source)] + UpdateAll(codec, rest, pair).0, UpdateAll(codec, rest, pair).1)
  {
    assert files[1..] == rest;
  }

  /** The files done so far, with the outcome on the others, make up the outcome on all. */
  ghost predicate Completes(whole: (seq<File>, Status<Error>), before: seq<File>, rest: (seq<File>, Status<Error>)) {
    whole.0 == before + rest.0 && whole.1 == rest.1
  }

  lemma {:induction false} CompletesNext(whole: (seq<File>, Status<Error>), before: seq<File>, f: File,
                                         rest: (seq<File>, Status<Error>))
    requires Completes(whole, before, ([f] + rest.0, rest.1))
    ensures Completes(whole, before + [f], rest)
  {
    assert before + ([f] + rest.0) == before + [f] + rest.0;
  }
}
