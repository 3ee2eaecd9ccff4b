/** The secrets manager over a complete store. With encryption and key rotation it behaves as a plain
    map of plaintexts. */
module Secrets {
  import opened Common
  import opened Envelopes
  import opened Joining
  import Hex

  const MAX_SECRET_KEYS := 100

  datatype MasterKey = MasterKey(id: string, key: Bytes)

  datatype Secret = Secret(
    namespace: string, name: string, data: map<string, Bytes>, annotations: map<string, string>,
    encryptedDataKey: Option<Bytes>, keyID: string, version: int,
    immutable: bool, deleted: bool, expiresAt: Option<int>)

  /** fmt.Sprintf("%s/%s", namespace, name) */
  function StoreKey(namespace: string, name: string): string {
    namespace + "/" + name
  }

  // ---- Where a value's data key and nonce are kept ----

  function EdkKey(key: string): string {
    "edk." + key
  }

  function NonceKey(key: string): string {
    "nonce." + key
  }

  lemma AnnotationKeysDiffer(a: string, b: string)
    ensures EdkKey(a) != NonceKey(b)
    ensures a != b ==> EdkKey(a) != EdkKey(b) && NonceKey(a) != NonceKey(b)
  {
    assert EdkKey(a)[0] == 'e' && NonceKey(b)[0] == 'n';
    assert EdkKey(a)[4..] == a && EdkKey(b)[4..] == b;
    assert NonceKey(a)[6..] == a && NonceKey(b)[6..] == b;
  }

  function Lookup(annotations: map<string, string>, name: string): string {
    if name in annotations then annotations[name] else ""
  }

  /** The envelope GetSecret assembles for a key: per-key metadata, or the legacy single one. */
  function StoredEnvelope(s: Secret, key: string): Option<Envelope>
    requires key in s.data
  {
    var edkHex, nonceHex := Lookup(s.annotations, EdkKey(key)), Lookup(s.annotations, NonceKey(key));
    if edkHex != "" && nonceHex != "" then
      var edk, nonce := Hex.Decode(edkHex), Hex.Decode(nonceHex);
      if edk.None? || nonce.None? then None else Some(Envelope(s.data[key], edk.value, nonce.value))
    else if s.encryptedDataKey.None? || Lookup(s.annotations, "nonce") == "" then None
    else
      var nonce := Hex.Decode(Lookup(s.annotations, "nonce"));
      if nonce.None? then None else Some(Envelope(s.data[key], s.encryptedDataKey.value, nonce.value))
  }

  function DecryptValue(c: Cipher, master: Bytes, s: Secret, key: string): Option<Bytes>
    requires key in s.data
  {
    var e := StoredEnvelope(s, key);
    if e.None? then None else Decrypt(c, master, e.value)
  }

  function Readings(c: Cipher, master: Bytes, s: Secret): map<string, Option<Bytes>> {
    map key | key in s.data :: DecryptValue(c, master, s, key)
  }

  function Collect(readings: map<string, Option<Bytes>>): Option<map<string, Bytes>> {
    if forall key :: key in readings ==> readings[key].Some?
    then Some(map key | key in readings :: readings[key].value)
    else None
  }

  /** What GetSecret returns as data: all values, or an error. */
  function DecryptSecret(c: Cipher, master: Bytes, s: Secret): Option<map<string, Bytes>> {
    Collect(Readings(c, master, s))
  }

  /** The envelope rotation reads, stricter than GetSecret: no legacy form. */
  function RotationEnvelope(annotations: map<string, string>, key: string, value: Bytes): Option<Envelope> {
    if NonceKey(key) !in annotations then None
    else
      var nonce := Hex.Decode(annotations[NonceKey(key)]);
      if nonce.None? || |nonce.value| != NONCE_SIZE then None
      else if EdkKey(key) !in annotations then None
      else
        var edk := Hex.Decode(annotations[EdkKey(key)]);
        if edk.None? then None else Some(Envelope(value, edk.value, nonce.value))
  }

  /** What rotation reads the value as. */
  function RotationValue(c: Cipher, master: Bytes, annotations: map<string, string>, key: string, value: Bytes): Option<Bytes> {
    var e := RotationEnvelope(annotations, key, value);
    if e.None? then None else Decrypt(c, master, e.value)
  }

  /** Whatever rotation can read, GetSecret reads the same way. */
  lemma RotationReadsAlike(c: Cipher, master: Bytes, s: Secret, key: string)
    requires key in s.data && RotationValue(c, master, s.annotations, key, s.data[key]).Some?
    ensures DecryptValue(c, master, s, key) == RotationValue(c, master, s.annotations, key, s.data[key])
  {
    var e := RotationEnvelope(s.annotations, key, s.data[key]).value;
    assert |e.edk| > 0 && |e.nonce| > 0;
    assert |s.annotations[EdkKey(key)]| == 2 * |e.edk| && |s.annotations[NonceKey(key)]| == 2 * |e.nonce|;
  }

  function RotationReadings(c: Cipher, master: Bytes, annotations: map<string, string>, data: map<string, Bytes>): map<string, Option<Bytes>> {
    map key | key in data :: RotationValue(c, master, annotations, key, data[key])
  }

  function Wrapped(data: map<string, Bytes>): map<string, Option<Bytes>> {
    map key | key in data :: Some(data[key])
  }

  predicate AllRead(readings: map<string, Option<Bytes>>) {
    forall key :: key in readings ==> readings[key].Some?
  }

  lemma ReadingsAlike(c: Cipher, master: Bytes, s: Secret)
    requires AllRead(RotationReadings(c, master, s.annotations, s.data))
    ensures Readings(c, master, s) == RotationReadings(c, master, s.annotations, s.data)
  {
    var a, b := Readings(c, master, s), RotationReadings(c, master, s.annotations, s.data);
    forall key | key in b
      ensures a[key] == b[key]
    {
      RotationReadsAlike(c, master, s, key);
    }
  }

  lemma CollectWrapped(data: map<string, Bytes>)
    ensures AllRead(Wrapped(data)) && Collect(Wrapped(data)) == Some(data)
  {
    assert Collect(Wrapped(data)).value == data;
  }

  function Annotate(annotations: map<string, string>, key: string, e: Envelope): map<string, string> {
    annotations[EdkKey(key) := Hex.Encode(e.edk)][NonceKey(key) := Hex.Encode(e.nonce)]
  }

  function Only<V>(m: map<string, V>, keys: set<string>): map<string, V> {
    map key | key in m && key in keys :: m[key]
  }

  lemma OnlyExtends<V>(m: map<string, V>, keys: set<string>, key: string)
    requires key in m
    ensures Only(m, keys)[key := m[key]] == Only(m, keys + {key})
  {
  }

  lemma OnlyAll<V>(m: map<string, V>, keys: set<string>)
    requires m.Keys <= keys
    ensures Only(m, keys) == m
  {
  }

  lemma AnnotatedReads(c: Cipher, master: Bytes, annotations: map<string, string>, key: string, e: Envelope)
    requires Decrypt(c, master, e).Some?
    ensures RotationValue(c, master, Annotate(annotations, key, e), key, e.data) == Decrypt(c, master, e)
  {
    AnnotationKeysDiffer(key, key);
    Hex.RoundTrip(e.edk);
    Hex.RoundTrip(e.nonce);
  }

  lemma AnnotateKeepsOther(c: Cipher, master: Bytes, annotations: map<string, string>, key: string, e: Envelope, other: string, value: Bytes)
    requires other != key
    ensures RotationValue(c, master, Annotate(annotations, key, e), other, value)
            == RotationValue(c, master, annotations, other, value)
  {
    AnnotationKeysDiffer(key, other);
    AnnotationKeysDiffer(other, key);
  }

  /** Annotating a key leaves the readings of all other keys alone. */
  lemma AnnotateKeepsOthers(c: Cipher, master: Bytes, annotations: map<string, string>, key: string, e: Envelope, data: map<string, Bytes>)
    requires key !in data
    ensures RotationReadings(c, master, Annotate(annotations, key, e), data) == RotationReadings(c, master, annotations, data)
  {
    var a, b := RotationReadings(c, master, Annotate(annotations, key, e), data), RotationReadings(c, master, annotations, data);
    forall other | other in b
      ensures a[other] == b[other]
    {
      AnnotateKeepsOther(c, master, annotations, key, e, other, data[other]);
    }
  }

  /** Storing one more envelope adds exactly its reading. */
  lemma AnnotateOne(c: Cipher, master: Bytes, annotations: map<string, string>, key: string, e: Envelope, data: map<string, Bytes>)
    requires key !in data && Decrypt(c, master, e).Some?
    ensures RotationReadings(c, master, Annotate(annotations, key, e), data[key := e.data])
            == RotationReadings(c, master, annotations, data)[key := Decrypt(c, master, e)]
  {
    AnnotateKeepsOthers(c, master, annotations, key, e, data);
    AnnotatedReads(c, master, annotations, key, e);
    ReadingsUpdate(c, master, Annotate(annotations, key, e), data, key, e.data);
  }

  lemma ReadingsUpdate(c: Cipher, master: Bytes, annotations: map<string, string>, data: map<string, Bytes>, key: string, value: Bytes)
    ensures RotationReadings(c, master, annotations, data[key := value])
            == RotationReadings(c, master, annotations, data)[key := RotationValue(c, master, annotations, key, value)]
  {
  }

  // ---- Randomness ----

  /** Callers know only the length, so what they prove holds for every outcome. */
  method RandomBytes(n: nat) returns (b: Bytes)
    ensures |b| == n
  {
    b := seq(n, i => 0);
  }

  method DrawRandomness() returns (r: Randomness)
    ensures Proper(r)
  {
    var dataKey := RandomBytes(DATA_KEY_SIZE);
    var nonce := RandomBytes(NONCE_SIZE);
    var keyNonce := RandomBytes(NONCE_SIZE);
    r := Randomness(dataKey, nonce, keyNonce);
  }

  // ---- Encrypting and moving whole secrets ----

  /** Encrypts every value under its own data key; fails exactly if some value is empty or too large. */
  method EncryptAll(c: Cipher, master: Bytes, data: map<string, Bytes>) returns (r: Option<map<string, Envelope>>)
    requires Sound(c) && |master| == DATA_KEY_SIZE
    ensures r.Some? <==> forall key :: key in data ==> Encryptable(data[key])
    ensures r.Some? ==> r.value.Keys == data.Keys
    ensures r.Some? ==> forall key :: key in data ==> Decrypt(c, master, r.value[key]) == Some(data[key])
  {
    var encrypted: map<string, Envelope> := map[];
    var keys := data.Keys;
    while keys != {}
      invariant keys <= data.Keys && encrypted.Keys == data.Keys - keys
      invariant forall key :: key in encrypted ==>
                  Encryptable(data[key]) && Decrypt(c, master, encrypted[key]) == Some(data[key])
      decreases keys
    {
      var key :| key in keys;
      keys := keys - {key};
      var random := DrawRandomness();
      RoundTrip(c, master, data[key], random);
      var e := Encrypt(c, master, data[key], random);
      if e.None? {
        return None;
      }
      encrypted := encrypted[key := e.value];
    }
    r := Some(encrypted);
  }

  function DataOf(encrypted: map<string, Envelope>): map<string, Bytes> {
    map key | key in encrypted :: encrypted[key].data
  }

  /** The keys in `done` read back as their plaintexts. */
  ghost predicate PartlyAnnotated(c: Cipher, master: Bytes, annotations: map<string, string>, encrypted: map<string, Envelope>,
                                  plain: map<string, Bytes>, done: set<string>) {
    RotationReadings(c, master, annotations, Only(DataOf(encrypted), done)) == Only(Wrapped(plain), done)
  }

  lemma NoneAnnotated(c: Cipher, master: Bytes, annotations: map<string, string>, encrypted: map<string, Envelope>, plain: map<string, Bytes>)
    ensures PartlyAnnotated(c, master, annotations, encrypted, plain, {})
  {
    assert Only(DataOf(encrypted), {}) == map[];
    assert Only(Wrapped(plain), {}) == map[];
  }

  lemma OneMoreAnnotated(c: Cipher, master: Bytes, annotations: map<string, string>, encrypted: map<string, Envelope>,
                         plain: map<string, Bytes>, done: set<string>, key: string)
    requires PartlyAnnotated(c, master, annotations, encrypted, plain, done)
    requires key !in done && key in encrypted && key in plain && Decrypt(c, master, encrypted[key]) == Some(plain[key])
    ensures PartlyAnnotated(c, master, Annotate(annotations, key, encrypted[key]), encrypted, plain, done + {key})
  {
    var data := DataOf(encrypted);
    AnnotateOne(c, master, annotations, key, encrypted[key], Only(data, done));
    OnlyExtends(data, done, key);
    OnlyExtends(Wrapped(plain), done, key);
  }

  lemma AllAnnotated(c: Cipher, master: Bytes, annotations: map<string, string>, encrypted: map<string, Envelope>,
                     plain: map<string, Bytes>, done: set<string>)
    requires PartlyAnnotated(c, master, annotations, encrypted, plain, done)
    requires encrypted.Keys <= done && plain.Keys <= done
    ensures RotationReadings(c, master, annotations, DataOf(encrypted)) == Wrapped(plain)
  {
    OnlyAll(DataOf(encrypted), done);
    OnlyAll(Wrapped(plain), done);
  }

  method AnnotateAll(c: Cipher, master: Bytes, start: map<string, string>, encrypted: map<string, Envelope>,
                     ghost plain: map<string, Bytes>)
    returns (annotations: map<string, string>)
    requires plain.Keys == encrypted.Keys
    requires forall key :: key in encrypted ==> Decrypt(c, master, encrypted[key]) == Some(plain[key])
    ensures RotationReadings(c, master, annotations, DataOf(encrypted)) == Wrapped(plain)
  {
    annotations := start;
    var keys := encrypted.Keys;
    ghost var done := {};
    NoneAnnotated(c, master, annotations, encrypted, plain);
    while keys != {}
      invariant keys <= encrypted.Keys && done == encrypted.Keys - keys
      invariant PartlyAnnotated(c, master, annotations, encrypted, plain, done)
      decreases keys
    {
      var key :| key in keys;
      keys := keys - {key};
      OneMoreAnnotated(c, master, annotations, encrypted, plain, done, key);
      annotations := Annotate(annotations, key, encrypted[key]);
      done := done + {key};
    }
    AllAnnotated(c, master, annotations, encrypted, plain, done);
  }

  /** Encrypts a plaintext map into a secret's data and annotations. */
  method SealValues(c: Cipher, master: Bytes, start: map<string, string>, plain: map<string, Bytes>)
    returns (ok: bool, data: map<string, Bytes>, annotations: map<string, string>)
    requires Sound(c) && |master| == DATA_KEY_SIZE
    ensures ok <==> forall key :: key in plain ==> Encryptable(plain[key])
    ensures ok ==> RotationReadings(c, master, annotations, data) == Wrapped(plain)
  {
    var encrypted := EncryptAll(c, master, plain);
    if encrypted.None? {
      return false, map[], start;
    }
    annotations := AnnotateAll(c, master, start, encrypted.value, plain);
    data := DataOf(encrypted.value);
    ok := true;
  }

  predicate AllMovable(readings: map<string, Option<Bytes>>) {
    forall key :: key in readings ==> readings[key].Some? && Encryptable(readings[key].value)
  }

  /** A secret all of whose values rotation can move. */
  predicate Rotatable(c: Cipher, oldKey: Bytes, s: Secret) {
    AllMovable(RotationReadings(c, oldKey, s.annotations, s.data))
  }

  /** t is s under another master key: same identity, same plaintexts, readable again by rotation. */
  ghost predicate Moved(c: Cipher, oldKey: Bytes, newKey: MasterKey, s: Secret, t: Secret) {
    && t == s.(data := t.data, annotations := t.annotations, keyID := newKey.id)
    && Rotatable(c, oldKey, s)
    && RotationReadings(c, newKey.key, t.annotations, t.data) == RotationReadings(c, oldKey, s.annotations, s.data)
  }

  /** A moved secret reads under the new key as it read under the old one. */
  lemma MovedReadsAlike(c: Cipher, oldKey: Bytes, newKey: MasterKey, s: Secret, t: Secret)
    requires Moved(c, oldKey, newKey, s, t)
    ensures DecryptSecret(c, oldKey, s).Some?
    ensures DecryptSecret(c, newKey.key, t) == DecryptSecret(c, oldKey, s)
  {
    ReadingsAlike(c, oldKey, s);
    ReadingsAlike(c, newKey.key, t);
  }

  /** Half-way through a secret: `keys` are still to do, `done` is re-encrypted. */
  ghost predicate PartlyMoved(c: Cipher, oldKey: Bytes, newKey: Bytes, s: Secret,
                              annotations: map<string, string>, done: map<string, Bytes>, keys: set<string>) {
    var start := RotationReadings(c, oldKey, s.annotations, s.data);
    && keys <= s.data.Keys && done.Keys <= s.data.Keys - keys
    && RotationReadings(c, oldKey, annotations, Only(s.data, keys)) == Only(start, keys)
    && RotationReadings(c, newKey, annotations, done) == Only(start, done.Keys)
    && AllMovable(Only(start, done.Keys))
  }

  lemma MoveOne(c: Cipher, oldKey: Bytes, newKey: Bytes, s: Secret,
                annotations: map<string, string>, done: map<string, Bytes>, keys: set<string>, key: string, e: Envelope)
    requires PartlyMoved(c, oldKey, newKey, s, annotations, done, keys) && key in keys
    requires Decrypt(c, newKey, e).Some? && Encryptable(Decrypt(c, newKey, e).value)
    requires Decrypt(c, newKey, e) == RotationValue(c, oldKey, s.annotations, key, s.data[key])
    ensures PartlyMoved(c, oldKey, newKey, s, Annotate(annotations, key, e), done[key := e.data], keys - {key})
  {
    var start := RotationReadings(c, oldKey, s.annotations, s.data);
    SkipOne(c, oldKey, newKey, s, annotations, done, keys, key);
    AnnotateOne(c, newKey, annotations, key, e, done);
    AnnotateKeepsOthers(c, oldKey, annotations, key, e, Only(s.data, keys - {key}));
    OnlyExtends(start, done.Keys, key);
    assert done[key := e.data].Keys == done.Keys + {key};
    MovableExtends(Only(start, done.Keys), key, start[key]);
  }

  lemma MovableExtends(readings: map<string, Option<Bytes>>, key: string, p: Option<Bytes>)
    requires AllMovable(readings) && p.Some? && Encryptable(p.value)
    ensures AllMovable(readings[key := p])
  {
  }

  lemma SkipOne(c: Cipher, oldKey: Bytes, newKey: Bytes, s: Secret,
                annotations: map<string, string>, done: map<string, Bytes>, keys: set<string>, key: string)
    requires PartlyMoved(c, oldKey, newKey, s, annotations, done, keys) && key in keys
    ensures PartlyMoved(c, oldKey, newKey, s, annotations, done, keys - {key})
    ensures RotationValue(c, oldKey, annotations, key, s.data[key]) == RotationValue(c, oldKey, s.annotations, key, s.data[key])
  {
    var start := RotationReadings(c, oldKey, s.annotations, s.data);
    var rest := Only(s.data, keys);
    var readings := RotationReadings(c, oldKey, annotations, rest);
    assert readings[key] == Only(start, keys)[key];
    assert RotationReadings(c, oldKey, annotations, Only(s.data, keys - {key})) == Only(readings, keys - {key});
    assert Only(Only(start, keys), keys - {key}) == Only(start, keys - {key});
  }

  /** The rotation loop over one secret: all its values move, or the secret is left alone. */
  method ReencryptSecret(c: Cipher, s: Secret, oldKey: Bytes, newKey: MasterKey) returns (r: Option<Secret>)
    requires Sound(c) && |newKey.key| == DATA_KEY_SIZE
    ensures r.Some? <==> Rotatable(c, oldKey, s)
    ensures r.Some? ==> Moved(c, oldKey, newKey, s, r.value)
  {
    var reencrypted: map<string, Bytes> := map[];
    var annotations := s.annotations;
    var keys := s.data.Keys;
    var failed := false;
    while keys != {}
      invariant PartlyMoved(c, oldKey, newKey.key, s, annotations, reencrypted, keys)
      invariant !failed ==> reencrypted.Keys == s.data.Keys - keys
      invariant failed ==> !Rotatable(c, oldKey, s)
      decreases keys
    {
      var key :| key in keys;
      var e := RotationEnvelope(annotations, key, s.data[key]);
      SkipOne(c, oldKey, newKey.key, s, annotations, reencrypted, keys, key);
      assert key in RotationReadings(c, oldKey, s.annotations, s.data);
      if e.None? {
        failed := true;
        keys := keys - {key};
        continue;
      }
      var random := DrawRandomness();
      ReEncryptPreserves(c, oldKey, newKey.key, e.value, random);
      var moved := ReEncrypt(c, oldKey, newKey.key, e.value, random);
      if moved.None? {
        failed := true;
        keys := keys - {key};
        continue;
      }
      MoveOne(c, oldKey, newKey.key, s, annotations, reencrypted, keys, key, moved.value);
      reencrypted := reencrypted[key := moved.value.data];
      annotations := Annotate(annotations, key, moved.value);
      keys := keys - {key};
    }
    if failed {
      return None;
    }
    AllMoved(c, oldKey, newKey.key, s, annotations, reencrypted);
    r := Some(s.(data := reencrypted, annotations := annotations, keyID := newKey.id));
  }

  lemma AllMoved(c: Cipher, oldKey: Bytes, newKey: Bytes, s: Secret, annotations: map<string, string>, done: map<string, Bytes>)
    requires PartlyMoved(c, oldKey, newKey, s, annotations, done, {}) && done.Keys == s.data.Keys
    ensures Rotatable(c, oldKey, s)
    ensures RotationReadings(c, newKey, annotations, done) == RotationReadings(c, oldKey, s.annotations, s.data)
  {
    OnlyAll(RotationReadings(c, oldKey, s.annotations, s.data), done.Keys);
  }

  // ---- The store ----

  class InMemorySecretStore {
    var secrets: map<string, Secret>

    constructor ()
      ensures secrets == map[]
    {
      secrets := map[];
    }

    method Save(s: Secret)
      modifies this
      ensures secrets == old(secrets)[StoreKey(s.namespace, s.name) := s]
    {
      secrets := secrets[StoreKey(s.namespace, s.name) := s];
    }

    method Fetch(namespace: string, name: string) returns (r: Option<Secret>)
      ensures r == Found(secrets, namespace, name)
    {
      if namespace == "" || name == "" {
        return None;
      }
      var key := StoreKey(namespace, name);
      if key !in secrets {
        return None;
      }
      return Some(secrets[key]);
    }

    /** List without a filter: every secret exactly once, in any order. */
    method List() returns (all: seq<Secret>, ghost order: seq<string>)
      ensures |order| == |all|
      ensures forall i :: 0 <= i < |all| ==> order[i] in secrets && all[i] == secrets[order[i]]
      ensures forall i, j :: 0 <= i < j < |order| ==> order[i] != order[j]
      ensures forall key :: key in secrets ==> key in order
    {
      all, order := [], [];
      var keys := secrets.Keys;
      while keys != {}
        invariant keys <= secrets.Keys && |order| == |all|
        invariant forall i :: 0 <= i < |all| ==> order[i] in secrets && order[i] !in keys && all[i] == secrets[order[i]]
        invariant forall i, j :: 0 <= i < j < |order| ==> order[i] != order[j]
        invariant forall key :: key in secrets && key !in keys ==> key in order
        decreases keys
      {
        var key :| key in keys;
        keys := keys - {key};
        all, order := all + [secrets[key]], order + [key];
      }
    }
  }

  function Found(secrets: map<string, Secret>, namespace: string, name: string): Option<Secret> {
    var key := StoreKey(namespace, name);
    if namespace == "" || name == "" || key !in secrets then None else Some(secrets[key])
  }

  // ---- The plain map the manager stands for ----

  datatype Plain = Plain(data: map<string, Bytes>, immutable: bool, deleted: bool, version: int, expiresAt: Option<int>)

  datatype Response = Response(data: map<string, Bytes>, version: int, expiresAt: Option<int>)

  /** Options a caller of CreateSecret can set, as far as they matter here. */
  datatype Options = Options(immutable: bool, expiresAt: Option<int>)

  /** Go's len of a string counts the bytes of its UTF-8 encoding. */
  function Utf8Length(s: string): nat {
    if s == "" then 0
    else
      var c := s[0] as int;
      (if c < 0x80 then 1 else if c < 0x800 then 2 else if c < 0x1_0000 then 3 else 4) + Utf8Length(s[1..])
  }

  predicate ValidName(namespace: string, name: string) {
    namespace != "" && name != "" && Utf8Length(name) <= 253 && '/' !in name
  }

  predicate ValidData(data: map<string, Bytes>) {
    0 < |data| <= MAX_SECRET_KEYS && forall key :: key in data ==> key != "" && Encryptable(data[key])
  }

  /** The random bytes of a new master key. */
  type KeyMaterial = b: Bytes | |b| == DATA_KEY_SIZE witness seq(DATA_KEY_SIZE, i => 0)

  datatype Op =
    | Create(namespace: string, name: string, data: map<string, Bytes>, options: Options)
    | Update(namespace: string, name: string, data: map<string, Bytes>)
    | Delete(namespace: string, name: string)
    | Rotate(material: KeyMaterial, id: Bytes)

  function Present(plain: map<string, Plain>, namespace: string, name: string): bool {
    namespace != "" && name != "" && StoreKey(namespace, name) in plain
  }

  /** Whether the operation succeeds. Rotation always does. */
  predicate Succeeds(plain: map<string, Plain>, op: Op) {
    match op
    case Create(ns, name, data, _) =>
      ValidName(ns, name) && ValidData(data) && (Present(plain, ns, name) ==> plain[StoreKey(ns, name)].deleted)
    case Update(ns, name, data) =>
      && Present(plain, ns, name)
      && !plain[StoreKey(ns, name)].immutable && !plain[StoreKey(ns, name)].deleted
      && forall key :: key in data ==> Encryptable(data[key])
    case Delete(ns, name) => Present(plain, ns, name)
    case Rotate(_, _) => true
  }

  /** Versions are uint64. */
  function NextVersion(v: int): int {
    (v + 1) % 0x1_0000_0000_0000_0000
  }

  /** What it does to the plain map. */
  function PlainStep(plain: map<string, Plain>, op: Op): map<string, Plain> {
    if !Succeeds(plain, op) then plain
    else
      match op
      case Create(ns, name, data, options) =>
        plain[StoreKey(ns, name) := Plain(data, options.immutable, false, 1, options.expiresAt)]
      case Update(ns, name, data) =>
        var before := plain[StoreKey(ns, name)];
        plain[StoreKey(ns, name) := before.(data := data, version := NextVersion(before.version))]
      case Delete(ns, name) => plain[StoreKey(ns, name) := plain[StoreKey(ns, name)].(deleted := true)]
      case Rotate(_, _) => plain
  }

  function PlainRun(plain: map<string, Plain>, ops: seq<Op>): map<string, Plain> {
    if ops == [] then plain else PlainStep(PlainRun(plain, ops[..|ops| - 1]), ops[|ops| - 1])
  }

  function WithoutRotations(ops: seq<Op>): seq<Op> {
    if ops == [] then []
    else WithoutRotations(ops[..|ops| - 1]) + if ops[|ops| - 1].Rotate? then [] else [ops[|ops| - 1]]
  }

  /** Rotations at any points of a run change nothing a reader can see. */
  lemma {:induction false} RotationsInvisible(plain: map<string, Plain>, ops: seq<Op>)
    ensures PlainRun(plain, ops) == PlainRun(plain, WithoutRotations(ops))
  {
    if ops != [] {
      var front, last := ops[..|ops| - 1], ops[|ops| - 1];
      RotationsInvisible(plain, front);
      var kept := WithoutRotations(front);
      if last.Rotate? {
        assert WithoutRotations(ops) == kept;
        assert PlainStep(PlainRun(plain, front), last) == PlainRun(plain, front);
      } else {
        assert WithoutRotations(ops) == kept + [last];
        assert (kept + [last])[..|kept|] == kept;
      }
    }
  }

  // ---- What a run wrote, told by its operations and their results ----

  /** What a reader gets of a live secret. */
  datatype Reading = Reading(data: map<string, Bytes>, version: int, expiresAt: Option<int>, immutable: bool)

  predicate Concerns(op: Op, key: string) {
    !op.Rotate? && StoreKey(op.namespace, op.name) == key
  }

  /** The last successful create starts at version one; each successful update since then replaced the data and
      raised the version; a successful delete ends it. */
  function LastWritten(ops: seq<Op>, results: seq<bool>, key: string): Option<Reading>
    requires |results| == |ops|
  {
    if ops == [] then None
    else
      var last := |ops| - 1;
      var before := LastWritten(ops[..last], results[..last], key);
      if !results[last] || !Concerns(ops[last], key) then before
      else
        match ops[last]
        case Create(_, _, data, options) => Some(Reading(data, 1, options.expiresAt, options.immutable))
        case Update(_, _, data) =>
          if before.None? then None
          else Some(before.value.(data := data, version := (before.value.version + 1) % 0x1_0000_0000_0000_0000))
        case Delete(_, _) => None
  }

  /** Some successful create of the key. */
  predicate EverCreated(ops: seq<Op>, results: seq<bool>, key: string)
    requires |results| == |ops|
  {
    && ops != []
    && var last := |ops| - 1;
       (results[last] && ops[last].Create? && Concerns(ops[last], key)) || EverCreated(ops[..last], results[..last], key)
  }

  /** Whether the next operation of a run succeeds, told by the ones before it. */
  predicate Permitted(ops: seq<Op>, results: seq<bool>, op: Op)
    requires |results| == |ops|
  {
    match op
    case Create(ns, name, data, _) =>
      && ns != "" && name != "" && Utf8Length(name) <= 253 && '/' !in name
      && 0 < |data| <= 100 && (forall k :: k in data ==> k != "" && 0 < |data[k]| <= 1024 * 1024)
      && LastWritten(ops, results, StoreKey(ns, name)).None?
    case Update(ns, name, data) =>
      && ns != "" && name != "" && LastWritten(ops, results, StoreKey(ns, name)).Some?
      && !LastWritten(ops, results, StoreKey(ns, name)).value.immutable
      && forall k :: k in data ==> 0 < |data[k]| <= 1024 * 1024
    case Delete(ns, name) => ns != "" && name != "" && EverCreated(ops, results, StoreKey(ns, name))
    case Rotate(_, _) => true
  }

  function Standing(plain: map<string, Plain>, key: string): Option<Reading> {
    if key in plain && !plain[key].deleted
    then Some(Reading(plain[key].data, plain[key].version, plain[key].expiresAt, plain[key].immutable)) else None
  }

  /** The results a run gives. */
  ghost predicate Outcomes(start: map<string, Plain>, ops: seq<Op>, results: seq<bool>) {
    |results| == |ops| && forall i :: 0 <= i < |ops| ==> results[i] == Succeeds(PlainRun(start, ops[..i]), ops[i])
  }

  lemma OutcomesLast(start: map<string, Plain>, ops: seq<Op>, results: seq<bool>, op: Op, ok: bool)
    requires Outcomes(start, ops, results) && ok == Succeeds(PlainRun(start, ops), op)
    ensures Outcomes(start, ops + [op], results + [ok])
  {
    var more := ops + [op];
    forall i | 0 <= i < |more|
      ensures (results + [ok])[i] == Succeeds(PlainRun(start, more[..i]), more[i])
    {
      assert more[..i] == ops[..i];
      assert ops[..|ops|] == ops;
    }
  }

  lemma OutcomesPrefix(ops: seq<Op>, results: seq<bool>)
    requires Outcomes(map[], ops, results) && ops != []
    ensures Outcomes(map[], ops[..|ops| - 1], results[..|ops| - 1])
  {
    var front := ops[..|ops| - 1];
    forall i | 0 <= i < |front|
      ensures results[..|ops| - 1][i] == Succeeds(PlainRun(map[], front[..i]), front[i])
    {
      assert front[..i] == ops[..i];
    }
  }

  lemma StepStands(plain: map<string, Plain>, op: Op, key: string, ops: seq<Op>, results: seq<bool>)
    requires |results| == |ops| && Standing(plain, key) == LastWritten(ops, results, key)
    ensures Standing(PlainStep(plain, op), key) == LastWritten(ops + [op], results + [Succeeds(plain, op)], key)
  {
    assert (ops + [op])[..|ops|] == ops && (results + [Succeeds(plain, op)])[..|ops|] == results;
  }

  lemma {:induction false} RunStands(ops: seq<Op>, results: seq<bool>, key: string)
    requires Outcomes(map[], ops, results)
    ensures Standing(PlainRun(map[], ops), key) == LastWritten(ops, results, key)
  {
    if ops != [] {
      var front, last := ops[..|ops| - 1], ops[|ops| - 1];
      OutcomesPrefix(ops, results);
      RunStands(front, results[..|ops| - 1], key);
      StepStands(PlainRun(map[], front), last, key, front, results[..|ops| - 1]);
      assert ops == front + [last] && results == results[..|ops| - 1] + [results[|ops| - 1]];
    }
  }

  lemma StepCreates(plain: map<string, Plain>, op: Op, key: string)
    ensures key in PlainStep(plain, op) <==> key in plain || (Succeeds(plain, op) && op.Create? && Concerns(op, key))
  {
  }

  lemma {:induction false} RunCreates(ops: seq<Op>, results: seq<bool>, key: string)
    requires Outcomes(map[], ops, results)
    ensures key in PlainRun(map[], ops) <==> EverCreated(ops, results, key)
  {
    if ops != [] {
      var front, last := ops[..|ops| - 1], ops[|ops| - 1];
      OutcomesPrefix(ops, results);
      RunCreates(front, results[..|ops| - 1], key);
      StepCreates(PlainRun(map[], front), last, key);
      assert results[|ops| - 1] == Succeeds(PlainRun(map[], front), last);
    }
  }

  /** The plain map permits what the run before it permits. */
  lemma RunPermits(ops: seq<Op>, results: seq<bool>, op: Op)
    requires Outcomes(map[], ops, results)
    ensures Succeeds(PlainRun(map[], ops), op) <==> Permitted(ops, results, op)
  {
    if !op.Rotate? {
      RunStands(ops, results, StoreKey(op.namespace, op.name));
      RunCreates(ops, results, StoreKey(op.namespace, op.name));
    }
  }

  lemma AllPermitted(ops: seq<Op>, results: seq<bool>)
    requires Outcomes(map[], ops, results)
    ensures forall i :: 0 <= i < |ops| ==> results[i] == Permitted(ops[..i], results[..i], ops[i])
  {
    forall i | 0 <= i < |ops|
      ensures results[i] == Permitted(ops[..i], results[..i], ops[i])
    {
      OutcomesTake(ops, results, i);
      RunPermits(ops[..i], results[..i], ops[i]);
    }
  }

  lemma {:induction false} OutcomesTake(ops: seq<Op>, results: seq<bool>, n: nat)
    requires Outcomes(map[], ops, results) && n <= |ops|
    ensures Outcomes(map[], ops[..n], results[..n])
  {
    if n < |ops| {
      OutcomesPrefix(ops, results);
      OutcomesTake(ops[..|ops| - 1], results[..|ops| - 1], n);
      assert ops[..|ops| - 1][..n] == ops[..n] && results[..|ops| - 1][..n] == results[..n];
    } else {
      assert ops[..n] == ops && results[..n] == results;
    }
  }

  /** Operations on other keys leave what was written under a key as it was. */
  lemma {:induction false} OthersUntouched(ops: seq<Op>, results: seq<bool>, more: seq<Op>, oks: seq<bool>, key: string)
    requires |results| == |ops| && |oks| == |more| && forall i :: 0 <= i < |more| ==> !Concerns(more[i], key)
    ensures LastWritten(ops + more, results + oks, key) == LastWritten(ops, results, key)
    decreases |more|
  {
    if more == [] {
      assert ops + more == ops && results + oks == results;
    } else {
      var n := |more| - 1;
      assert (ops + more)[..|ops| + n] == ops + more[..n] && (results + oks)[..|ops| + n] == results + oks[..n];
      OthersUntouched(ops, results, more[..n], oks[..n], key);
    }
  }

  /** Two secrets share a store key exactly if they are the same, or a slash inside a name can be read as the one
      between namespace and name. */
  lemma StoreKeysIff(a: string, b: string, c: string, d: string)
    ensures StoreKey(a, b) == StoreKey(c, d) <==>
            (a == c && b == d) || Shifted(a, b, c, d, '/') || Shifted(c, d, a, b, '/')
  {
    JoinSameIff(a, b, c, d, '/');
    assert StoreKey(a, b) == Join(a, '/', b) && StoreKey(c, d) == Join(c, '/', d);
  }

  /** Names that can be created keep their secrets apart, whatever their namespaces. */
  lemma ValidKeysDiffer(a: string, b: string, c: string, d: string)
    requires '/' !in b && '/' !in d
    ensures StoreKey(a, b) == StoreKey(c, d) <==> a == c && b == d
  {
    JoinUnique(a, b, c, d, '/');
    assert StoreKey(a, b) == Join(a, '/', b) && StoreKey(c, d) == Join(c, '/', d);
  }

  // ---- The stored form ----

  /** The stored secret stands for p: every live value decrypts under the current master key to the
      plaintext last written, in a form rotation can read. */
  ghost predicate Represents(c: Cipher, master: MasterKey, s: Secret, p: Plain) {
    && s.immutable == p.immutable && s.deleted == p.deleted && s.version == p.version && s.expiresAt == p.expiresAt
    && (!s.deleted ==>
          && s.keyID == master.id
          && AllMovable(Wrapped(p.data))
          && RotationReadings(c, master.key, s.annotations, s.data) == Wrapped(p.data))
  }

  /** What rotation reads under one key cannot be read under another. */
  lemma OtherKeyReadsNothing(c: Cipher, master: MasterKey, other: Bytes, s: Secret, p: Plain)
    requires OneKey(c) && other != master.key && Represents(c, master, s, p) && !s.deleted && s.data != map[]
    ensures DecryptSecret(c, other, s).None?
  {
    var key :| key in s.data;
    assert RotationReadings(c, master.key, s.annotations, s.data)[key] == Wrapped(p.data)[key];
    RotationReadsAlike(c, master.key, s, key);
    WrongKeyFails(c, master.key, other, StoredEnvelope(s, key).value);
    assert Readings(c, other, s)[key].None?;
  }

  lemma NoneReadByOld(c: Cipher, oldKey: Bytes, newKey: MasterKey, secrets: map<string, Secret>, plain: map<string, Plain>)
    requires OneKey(c) && oldKey != newKey.key && StoreRepresents(c, newKey, secrets, plain)
    ensures forall key :: key in secrets && !secrets[key].deleted && secrets[key].data != map[] ==>
              DecryptSecret(c, oldKey, secrets[key]).None?
  {
    forall key | key in secrets && !secrets[key].deleted && secrets[key].data != map[]
      ensures DecryptSecret(c, oldKey, secrets[key]).None?
    {
      OtherKeyReadsNothing(c, newKey, oldKey, secrets[key], plain[key]);
    }
  }

  lemma RepresentedIsRead(c: Cipher, master: MasterKey, s: Secret, p: Plain)
    requires Represents(c, master, s, p) && !s.deleted
    ensures DecryptSecret(c, master.key, s) == Some(p.data)
    ensures Rotatable(c, master.key, s)
  {
    CollectWrapped(p.data);
    ReadingsAlike(c, master.key, s);
  }

  lemma MovedRepresents(c: Cipher, oldKey: MasterKey, newKey: MasterKey, s: Secret, t: Secret, p: Plain)
    requires Represents(c, oldKey, s, p) && !s.deleted && Moved(c, oldKey.key, newKey, s, t)
    ensures Represents(c, newKey, t, p)
  {
  }

  /** The whole store stands for the plain map. */
  ghost predicate StoreRepresents(c: Cipher, master: MasterKey, secrets: map<string, Secret>, plain: map<string, Plain>) {
    && Keyed(secrets)
    && plain.Keys == secrets.Keys
    && forall key :: key in plain ==> Represents(c, master, secrets[key], plain[key])
  }

  lemma PutRepresents(c: Cipher, master: MasterKey, secrets: map<string, Secret>, plain: map<string, Plain>, s: Secret, p: Plain)
    requires StoreRepresents(c, master, secrets, plain) && Represents(c, master, s, p)
    ensures var key := StoreKey(s.namespace, s.name);
            StoreRepresents(c, master, secrets[key := s], plain[key := p])
  {
  }

  /** The manager's lookups see the plain map. */
  lemma FoundMatches(c: Cipher, master: MasterKey, secrets: map<string, Secret>, plain: map<string, Plain>, namespace: string, name: string)
    requires StoreRepresents(c, master, secrets, plain)
    ensures Found(secrets, namespace, name).Some? <==> Present(plain, namespace, name)
    ensures Present(plain, namespace, name) ==>
              var s, p := Found(secrets, namespace, name).value, plain[StoreKey(namespace, name)];
              Represents(c, master, s, p) && StoreKey(s.namespace, s.name) == StoreKey(namespace, name)
  {
  }

  /** Fresh contents keep a live secret in step with its plain counterpart. */
  lemma RefilledRepresents(c: Cipher, master: MasterKey, s: Secret, p: Plain,
                           data: map<string, Bytes>, encrypted: map<string, Bytes>, annotations: map<string, string>, version: int)
    requires Represents(c, master, s, p) && !s.deleted
    requires forall key :: key in data ==> Encryptable(data[key])
    requires RotationReadings(c, master.key, annotations, encrypted) == Wrapped(data)
    ensures Represents(c, master,
                       s.(data := encrypted, annotations := annotations, encryptedDataKey := None, version := version),
                       p.(data := data, version := version))
  {
    WrappedMovable(data);
  }

  lemma RefillRepresents(c: Cipher, master: MasterKey, secrets: map<string, Secret>, plain: map<string, Plain>, key: string, s: Secret,
                         data: map<string, Bytes>, encrypted: map<string, Bytes>, annotations: map<string, string>, version: int)
    requires StoreRepresents(c, master, secrets, plain) && key in plain && Represents(c, master, s, plain[key])
    requires StoreKey(s.namespace, s.name) == key && !s.deleted
    requires forall k :: k in data ==> Encryptable(data[k])
    requires RotationReadings(c, master.key, annotations, encrypted) == Wrapped(data)
    ensures var t := s.(data := encrypted, annotations := annotations, encryptedDataKey := None, version := version);
            StoreRepresents(c, master, secrets[key := t], plain[key := plain[key].(data := data, version := version)])
  {
    var t := s.(data := encrypted, annotations := annotations, encryptedDataKey := None, version := version);
    RefilledRepresents(c, master, s, plain[key], data, encrypted, annotations, version);
    PutRepresents(c, master, secrets, plain, t, plain[key].(data := data, version := version));
  }

  lemma WrappedMovable(data: map<string, Bytes>)
    requires forall key :: key in data ==> Encryptable(data[key])
    ensures AllMovable(Wrapped(data))
  {
  }

  /** The effect of a rotation on one stored secret. */
  ghost predicate AfterRotation(c: Cipher, oldKey: Bytes, newKey: MasterKey, s: Secret, t: Secret) {
    if !s.deleted && Rotatable(c, oldKey, s) then Moved(c, oldKey, newKey, s, t) else t == s
  }

  /** Every secret sits under its own name. */
  ghost predicate Keyed(secrets: map<string, Secret>) {
    forall key :: key in secrets ==> StoreKey(secrets[key].namespace, secrets[key].name) == key
  }

  /** Half-way through the store: the secrets named in `done` have been dealt with. */
  ghost predicate PartlyRotated(c: Cipher, oldKey: Bytes, newKey: MasterKey, before: map<string, Secret>,
                                now: map<string, Secret>, done: set<string>) {
    && now.Keys == before.Keys && Keyed(now)
    && forall key :: key in before ==>
         if key in done then AfterRotation(c, oldKey, newKey, before[key], now[key]) else now[key] == before[key]
  }

  /** No live secret among `done` resisted rotation. */
  ghost predicate NoneLeft(c: Cipher, oldKey: Bytes, before: map<string, Secret>, done: set<string>) {
    forall key :: key in done && key in before ==> before[key].deleted || Rotatable(c, oldKey, before[key])
  }

  lemma RotateOne(c: Cipher, oldKey: Bytes, newKey: MasterKey, before: map<string, Secret>,
                  now: map<string, Secret>, done: set<string>, key: string, t: Secret)
    requires PartlyRotated(c, oldKey, newKey, before, now, done) && key in before && Keyed(before)
    requires AfterRotation(c, oldKey, newKey, before[key], t)
    ensures StoreKey(t.namespace, t.name) == key
    ensures PartlyRotated(c, oldKey, newKey, before, now[key := t], done + {key})
  {
  }

  // ---- The manager ----

  class Manager {
    const cipher: Cipher
    const store: InMemorySecretStore
    var masterKey: MasterKey
    ghost var plain: map<string, Plain>

    ghost predicate Valid()
      reads this, store
    {
      && Sound(cipher) && |masterKey.key| == DATA_KEY_SIZE
      && StoreRepresents(cipher, masterKey, store.secrets, plain)
    }

    constructor (c: Cipher, key: MasterKey)
      requires Sound(c) && |key.key| == DATA_KEY_SIZE
      ensures Valid() && plain == map[] && masterKey == key && cipher == c
      ensures fresh(store)
    {
      cipher := c;
      masterKey := key;
      store := new InMemorySecretStore();
      plain := map[];
    }

    method CreateSecret(namespace: string, name: string, data: map<string, Bytes>, options: Options) returns (ok: bool)
      requires Valid()
      modifies this`plain, store
      ensures Valid()
      ensures ok <==> Succeeds(old(plain), Create(namespace, name, data, options))
      ensures plain == PlainStep(old(plain), Create(namespace, name, data, options))
      ensures ok ==>
                var key := StoreKey(namespace, name);
                && key in plain && plain[key] == Plain(data, options.immutable, false, 1, options.expiresAt)
                && forall k :: k != key ==> (k in plain <==> k in old(plain)) && (k in plain ==> plain[k] == old(plain)[k])
    {
      if namespace == "" {
        return false;
      }
      if name == "" {
        return false;
      }
      if Utf8Length(name) > 253 {
        return false;
      }
      if '/' in name {
        return false;
      }
      if !ValidData(data) {
        return false;
      }
      var existing := store.Fetch(namespace, name);
      FoundMatches(cipher, masterKey, store.secrets, plain, namespace, name);
      if existing.Some? && !existing.value.deleted {
        return false;
      }
      var sealed, encrypted, annotations := SealValues(cipher, masterKey.key, map[], data);
      if !sealed {
        assert false; // validation has rejected every value that encryption would reject
      }
      var secret := Secret(namespace, name, encrypted, annotations,
                           None, masterKey.id, 1, options.immutable, false, options.expiresAt);
      ghost var p := Plain(data, options.immutable, false, 1, options.expiresAt);
      WrappedMovable(data);
      PutRepresents(cipher, masterKey, store.secrets, plain, secret, p);
      store.Save(secret);
      plain := PlainStep(plain, Create(namespace, name, data, options));
      ok := true;
    }

    method UpdateSecret(namespace: string, name: string, data: map<string, Bytes>) returns (ok: bool)
      requires Valid()
      modifies this`plain, store
      ensures Valid()
      ensures ok <==> Succeeds(old(plain), Update(namespace, name, data))
      ensures plain == PlainStep(old(plain), Update(namespace, name, data))
      ensures ok ==>
                var key := StoreKey(namespace, name);
                && key in plain && plain[key].data == data && !plain[key].deleted
                && plain[key].version == (old(plain)[key].version + 1) % 0x1_0000_0000_0000_0000
                && forall k :: k != key ==> (k in plain <==> k in old(plain)) && (k in plain ==> plain[k] == old(plain)[k])
    {
      var found := store.Fetch(namespace, name);
      FoundMatches(cipher, masterKey, store.secrets, plain, namespace, name);
      if found.None? {
        return false;
      }
      var secret := found.value;
      ghost var key := StoreKey(namespace, name);
      if secret.immutable {
        return false;
      }
      if secret.deleted {
        return false;
      }
      var sealed, encrypted, annotations := SealValues(cipher, masterKey.key, secret.annotations, data);
      if !sealed {
        return false;
      }
      Refill(secret, data, encrypted, annotations);
      ok := true;
    }

    /** The last part of UpdateSecret: new contents and the next version for a live secret. */
    method Refill(secret: Secret, ghost data: map<string, Bytes>, encrypted: map<string, Bytes>, annotations: map<string, string>)
      requires Valid() && StoreKey(secret.namespace, secret.name) in plain
      requires Represents(cipher, masterKey, secret, plain[StoreKey(secret.namespace, secret.name)]) && !secret.deleted
      requires forall k :: k in data ==> Encryptable(data[k])
      requires RotationReadings(cipher, masterKey.key, annotations, encrypted) == Wrapped(data)
      modifies this`plain, store
      ensures Valid()
      ensures var key := StoreKey(secret.namespace, secret.name);
              plain == old(plain)[key := old(plain)[key].(data := data, version := NextVersion(secret.version))]
    {
      ghost var key := StoreKey(secret.namespace, secret.name);
      var version := NextVersion(secret.version);
      RefillRepresents(cipher, masterKey, store.secrets, plain, key, secret, data, encrypted, annotations, version);
      store.Save(secret.(data := encrypted, annotations := annotations, encryptedDataKey := None, version := version));
      plain := plain[key := plain[key].(data := data, version := version)];
    }

    method DeleteSecret(namespace: string, name: string) returns (ok: bool)
      requires Valid()
      modifies this`plain, store
      ensures Valid()
      ensures ok <==> Succeeds(old(plain), Delete(namespace, name))
      ensures plain == PlainStep(old(plain), Delete(namespace, name))
    {
      var found := store.Fetch(namespace, name);
      FoundMatches(cipher, masterKey, store.secrets, plain, namespace, name);
      if found.None? {
        return false;
      }
      ghost var key := StoreKey(namespace, name);
      PutRepresents(cipher, masterKey, store.secrets, plain, found.value.(deleted := true), plain[key].(deleted := true));
      store.Save(found.value.(deleted := true));
      plain := PlainStep(plain, Delete(namespace, name));
      ok := true;
    }

    /** The decrypt path of GetSecret: the plaintexts last written, for exactly the live, unexpired secrets. */
    method GetSecret(namespace: string, name: string, now: int) returns (r: Option<Response>)
      requires Valid()
      ensures r.Some? <==>
                && Present(plain, namespace, name)
                && var p := plain[StoreKey(namespace, name)];
                   !p.deleted && (p.expiresAt.Some? ==> now <= p.expiresAt.value)
      ensures r.Some? ==> var p := plain[StoreKey(namespace, name)]; r.value == Response(p.data, p.version, p.expiresAt)
    {
      var found := store.Fetch(namespace, name);
      FoundMatches(cipher, masterKey, store.secrets, plain, namespace, name);
      if found.None? {
        return None;
      }
      var secret := found.value;
      if secret.deleted {
        return None;
      }
      if secret.expiresAt.Some? && now > secret.expiresAt.value {
        return None;
      }
      RepresentedIsRead(cipher, masterKey, secret, plain[StoreKey(namespace, name)]);
      var decrypted := DecryptSecret(cipher, masterKey.key, secret);
      if decrypted.None? {
        assert false; // every live secret can be read
      }
      r := Some(Response(decrypted.value, secret.version, secret.expiresAt));
    }

    /** The rotation loop over the listed secrets. */
    method RotateListed(all: seq<Secret>, ghost order: seq<string>, oldKey: Bytes, newKey: MasterKey) returns (failed: bool)
      requires Sound(cipher) && |newKey.key| == DATA_KEY_SIZE && Keyed(store.secrets)
      requires |order| == |all|
      requires forall i :: 0 <= i < |all| ==> order[i] in store.secrets && all[i] == store.secrets[order[i]]
      requires forall i, j :: 0 <= i < j < |order| ==> order[i] != order[j]
      requires forall key :: key in store.secrets ==> key in order
      modifies store
      ensures PartlyRotated(cipher, oldKey, newKey, old(store.secrets), store.secrets, old(store.secrets).Keys)
      ensures failed <==> !NoneLeft(cipher, oldKey, old(store.secrets), old(store.secrets).Keys)
    {
      ghost var before := store.secrets;
      failed := false;
      ghost var done: set<string> := {};
      for i := 0 to |all|
        invariant done <= before.Keys
        invariant forall j :: 0 <= j < |order| ==> (order[j] in done <==> j < i)
        invariant PartlyRotated(cipher, oldKey, newKey, before, store.secrets, done)
        invariant failed <==> !NoneLeft(cipher, oldKey, before, done)
      {
        var secret := all[i];
        ghost var left := store.secrets[order[i]];
        assert store.secrets[order[i] := left] == store.secrets;
        if secret.deleted {
          RotateOne(cipher, oldKey, newKey, before, store.secrets, done, order[i], left);
          done := done + {order[i]};
          continue;
        }
        var moved := ReencryptSecret(cipher, secret, oldKey, newKey);
        if moved.Some? {
          RotateOne(cipher, oldKey, newKey, before, store.secrets, done, order[i], moved.value);
          store.Save(moved.value);
        } else {
          RotateOne(cipher, oldKey, newKey, before, store.secrets, done, order[i], left);
          failed := true;
        }
        done := done + {order[i]};
      }
      assert done == before.Keys;
    }

    /** What a rotation does to any store, represented or not: readable per-key secrets move to the
        new key, all others stay, and the new key is adopted only if nothing was left behind. */
    method RotateStore(material: KeyMaterial, keyID: Bytes) returns (ok: bool, ghost newKey: MasterKey)
      requires Sound(cipher) && |masterKey.key| == DATA_KEY_SIZE && Keyed(store.secrets)
      modifies this`masterKey, store
      ensures newKey == MasterKey("key-" + Hex.Encode(keyID), material)
      ensures store.secrets.Keys == old(store.secrets.Keys) && Keyed(store.secrets)
      ensures forall key :: key in store.secrets ==>
                AfterRotation(cipher, old(masterKey).key, newKey, old(store.secrets)[key], store.secrets[key])
      ensures ok <==> NoneLeft(cipher, old(masterKey).key, old(store.secrets), old(store.secrets).Keys)
      ensures masterKey == if ok then newKey else old(masterKey)
    {
      var next := MasterKey("key-" + Hex.Encode(keyID), material);
      newKey := next;
      var all, order := store.List();
      var failed := RotateListed(all, order, masterKey.key, next);
      if failed {
        return false, newKey;
      }
      masterKey := next;
      ok := true;
    }

    /** On a represented store rotation always succeeds, leaves no live secret on the old key and
        changes no plaintext. */
    method RotateMasterKey(material: KeyMaterial, keyID: Bytes) returns (ok: bool)
      requires Valid()
      modifies this`masterKey, store
      ensures Valid() && ok && masterKey == MasterKey("key-" + Hex.Encode(keyID), material)
      ensures forall key :: key in store.secrets && !store.secrets[key].deleted ==>
                store.secrets[key].keyID == masterKey.id
                && DecryptSecret(cipher, masterKey.key, store.secrets[key])
                   == DecryptSecret(cipher, old(masterKey).key, old(store.secrets)[key])
      ensures OneKey(cipher) && masterKey.key != old(masterKey).key ==>
                forall key :: key in store.secrets && !store.secrets[key].deleted && store.secrets[key].data != map[] ==>
                  DecryptSecret(cipher, old(masterKey).key, store.secrets[key]).None?
    {
      ghost var before, oldKey := store.secrets, masterKey;
      forall key | key in before && !before[key].deleted
        ensures Rotatable(cipher, oldKey.key, before[key])
      {
        RepresentedIsRead(cipher, oldKey, before[key], plain[key]);
      }
      ghost var newKey;
      ok, newKey := RotateStore(material, keyID);
      forall key | key in before && !before[key].deleted
        ensures Represents(cipher, newKey, store.secrets[key], plain[key])
        ensures DecryptSecret(cipher, newKey.key, store.secrets[key]) == DecryptSecret(cipher, oldKey.key, before[key])
      {
        MovedRepresents(cipher, oldKey, newKey, before[key], store.secrets[key], plain[key]);
        MovedReadsAlike(cipher, oldKey.key, newKey, before[key], store.secrets[key]);
      }
      if OneKey(cipher) && newKey.key != oldKey.key {
        NoneReadByOld(cipher, oldKey.key, newKey, store.secrets, plain);
      }
    }

    /** Any run of operations acts on the plain map alone. */
    method Execute(ops: seq<Op>) returns (results: seq<bool>)
      requires Valid()
      modifies this, store
      ensures Valid()
      ensures plain == PlainRun(old(plain), ops) == PlainRun(old(plain), WithoutRotations(ops))
      ensures Outcomes(old(plain), ops, results)
    {
      results := [];
      for i := 0 to |ops|
        invariant Valid()
        invariant plain == PlainRun(old(plain), ops[..i])
        invariant Outcomes(old(plain), ops[..i], results)
      {
        assert ops[..i + 1] == ops[..i] + [ops[i]];
        assert ops[..i + 1][..i] == ops[..i];
        var ok := Perform(ops[i]);
        OutcomesLast(old(plain), ops[..i], results, ops[i], ok);
        results := results + [ok];
      }
      assert ops[..|ops|] == ops;
      RotationsInvisible(old(plain), ops);
    }

    method Perform(op: Op) returns (ok: bool)
      requires Valid()
      modifies this, store
      ensures Valid()
      ensures ok <==> Succeeds(old(plain), op)
      ensures plain == PlainStep(old(plain), op)
      ensures masterKey.key == if op.Rotate? then op.material else old(masterKey.key)
    {
      match op
      case Create(ns, name, data, options) => ok := CreateSecret(ns, name, data, options);
      case Update(ns, name, data) => ok := UpdateSecret(ns, name, data);
      case Delete(ns, name) => ok := DeleteSecret(ns, name);
      case Rotate(material, id) => ok := RotateMasterKey(material, id);
    }
  }

  /** A manager that rotates its key anywhere in a run and one that never does answer alike afterwards:
      the same secrets can be read, with the same contents, at every time. */
  method RotateOrNot(rotating: Manager, steady: Manager, ops: seq<Op>, namespace: string, name: string, now: int)
    returns (r: Option<Response>, s: Option<Response>)
    requires rotating.Valid() && steady.Valid() && rotating.plain == steady.plain
    requires rotating != steady && rotating.store != steady.store
    modifies rotating, rotating.store, steady, steady.store
    ensures r == s
  {
    var _ := rotating.Execute(ops);
    var _ := steady.Execute(WithoutRotations(ops));
    r := rotating.GetSecret(namespace, name, now);
    s := steady.GetSecret(namespace, name, now);
  }

  /** Any run of a new manager, followed by a read: every operation succeeds exactly if the ones before it permit it,
      and the answer is what was last written under that name, unless it has expired. */
  method RunThenRead(c: Cipher, key: MasterKey, ops: seq<Op>, namespace: string, name: string, now: int)
    returns (results: seq<bool>, r: Option<Response>)
    requires Sound(c) && |key.key| == DATA_KEY_SIZE
    ensures |results| == |ops|
    ensures forall i :: 0 <= i < |ops| ==> results[i] == Permitted(ops[..i], results[..i], ops[i])
    ensures var w := LastWritten(ops, results, StoreKey(namespace, name));
            r == if namespace == "" || name == "" || w.None? || (w.value.expiresAt.Some? && now > w.value.expiresAt.value) then None
                 else Some(Response(w.value.data, w.value.version, w.value.expiresAt))
  {
    var manager := new Manager(c, key);
    results := manager.Execute(ops);
    AllPermitted(ops, results);
    RunStands(ops, results, StoreKey(namespace, name));
    r := manager.GetSecret(namespace, name, now);
  }
}
