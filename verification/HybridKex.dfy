// The hybrid key establishment of a transfer: ECDH on a one-time prekey and an
// ML-KEM encapsulation, bound by a canonical transcript and combined by HKDF.

module HybridKex {
  import opened Basics
  import opened Hashing
  import opened Primitives
  import opened KeyRegistry
  import opened Text
  import Json

  // ---- Canonical transcript ----

  datatype Inputs = Inputs(
    transferId: string, senderId: string, receiverId: string,
    ephemeralPublic: Bytes, receiverPublic: Bytes,
    kemCiphertext: Bytes, kemPublic: Bytes)

  /** The literal dictionary of the transcript, in the order of sort_keys. */
  function TranscriptFields(lib: Library, x: Inputs): seq<Json.Field> {
    [("classical_algorithm", "ECDH-P256"),
     ("ecdh_ephemeral_pub_sha256", lib.HexDigest(x.ephemeralPublic)),
     ("ecdh_receiver_pub_sha256", lib.HexDigest(x.receiverPublic)),
     ("kdf_algorithm", "HKDF-SHA256"),
     ("mlkem_ciphertext_sha256", lib.HexDigest(x.kemCiphertext)),
     ("mlkem_pub_sha256", lib.HexDigest(x.kemPublic)),
     ("pq_algorithm", "ML-KEM-768"),
     ("protocol_version", "UPCE-PFCE-HYBRID-KEX-V1"),
     ("receiver_id", x.receiverId),
     ("sender_id", x.senderId),
     ("transfer_id", x.transferId)]
  }

  function Transcript(lib: Library, x: Inputs): Digest {
    lib.sha(lib.dumps(TranscriptFields(lib, x)))
  }

  /** The order of the keys is the one sort_keys produces. */
  lemma TranscriptKeysAscend(lib: Library, x: Inputs)
    ensures Json.KeysAscend(TranscriptFields(lib, x))
  {
    assert Json.LessAt("classical_algorithm", "ecdh_ephemeral_pub_sha256", 0);
    assert Json.LessAt("ecdh_ephemeral_pub_sha256", "ecdh_receiver_pub_sha256", 5);
    assert Json.LessAt("ecdh_receiver_pub_sha256", "kdf_algorithm", 0);
    assert Json.LessAt("kdf_algorithm", "mlkem_ciphertext_sha256", 0);
    assert Json.LessAt("mlkem_ciphertext_sha256", "mlkem_pub_sha256", 6);
    assert Json.LessAt("mlkem_pub_sha256", "pq_algorithm", 0);
    assert Json.LessAt("pq_algorithm", "protocol_version", 1);
    assert Json.LessAt("protocol_version", "receiver_id", 0);
    assert Json.LessAt("receiver_id", "sender_id", 0);
    assert Json.LessAt("sender_id", "transfer_id", 0);
  }

  /** Each input is hashed under its own name. */
  lemma TranscriptNames(lib: Library, x: Inputs)
    ensures var fields := TranscriptFields(lib, x);
            && Json.Get(fields, "transfer_id") == Some(x.transferId)
            && Json.Get(fields, "sender_id") == Some(x.senderId)
            && Json.Get(fields, "receiver_id") == Some(x.receiverId)
            && Json.Get(fields, "ecdh_ephemeral_pub_sha256") == Some(Hex(lib.sha(x.ephemeralPublic)))
            && Json.Get(fields, "ecdh_receiver_pub_sha256") == Some(Hex(lib.sha(x.receiverPublic)))
            && Json.Get(fields, "mlkem_ciphertext_sha256") == Some(Hex(lib.sha(x.kemCiphertext)))
            && Json.Get(fields, "mlkem_pub_sha256") == Some(Hex(lib.sha(x.kemPublic)))
  {
    TranscriptKeysAscend(lib, x);
    var fields := TranscriptFields(lib, x);
    Json.GetAt(fields, 1);
    Json.GetAt(fields, 2);
    Json.GetAt(fields, 4);
    Json.GetAt(fields, 5);
    Json.GetAt(fields, 8);
    Json.GetAt(fields, 9);
    Json.GetAt(fields, 10);
  }

  /** A digest collision between what two transcripts hash. */
  predicate TranscriptCollision(lib: Library, x: Inputs, y: Inputs) {
    || lib.Collide(lib.dumps(TranscriptFields(lib, x)), lib.dumps(TranscriptFields(lib, y)))
    || lib.Collide(x.ephemeralPublic, y.ephemeralPublic)
    || lib.Collide(x.receiverPublic, y.receiverPublic)
    || lib.Collide(x.kemCiphertext, y.kemCiphertext)
    || lib.Collide(x.kemPublic, y.kemPublic)
  }

  /** Equal transcripts mean equal inputs, or the inputs themselves collide. */
  lemma TranscriptBinds(lib: Library, x: Inputs, y: Inputs)
    requires lib.Lawful() && Transcript(lib, x) == Transcript(lib, y)
    ensures x == y || TranscriptCollision(lib, x, y)
  {
    var fx, fy := TranscriptFields(lib, x), TranscriptFields(lib, y);
    if lib.dumps(fx) == lib.dumps(fy) {
      assert lib.Determines(fx, fy);
      assert fx[1] == fy[1] && fx[2] == fy[2] && fx[4] == fy[4] && fx[5] == fy[5];
      assert fx[8] == fy[8] && fx[9] == fy[9] && fx[10] == fy[10];
      lib.SameHexDigest(x.ephemeralPublic, y.ephemeralPublic);
      lib.SameHexDigest(x.receiverPublic, y.receiverPublic);
      lib.SameHexDigest(x.kemCiphertext, y.kemCiphertext);
      lib.SameHexDigest(x.kemPublic, y.kemPublic);
    }
  }

  // ---- Key material ----

  const UINT32 := 0x1_0000_0000

  /** struct.pack(">I", n). */
  function Be32(n: nat): (b: Bytes)
    requires n < UINT32
    ensures |b| == 4
  {
    [n / 0x100_0000, n / 0x1_0000 % 256, n / 256 % 256, n % 256]
  }

  function FromBe32(b: Bytes): nat
    requires |b| == 4
  {
    (b[0] as int) * 0x100_0000 + (b[1] as int) * 0x1_0000 + (b[2] as int) * 256 + (b[3] as int)
  }

  lemma Be32RoundTrip(n: nat)
    requires n < UINT32
    ensures FromBe32(Be32(n)) == n
  {
    assert n == 256 * (n / 256) + n % 256;
    assert n / 256 == 256 * (n / 0x1_0000) + n / 256 % 256;
    assert n / 0x1_0000 == 256 * (n / 0x100_0000) + n / 0x1_0000 % 256;
  }

  /** Both secrets, each behind its length; packing fails on longer ones. */
  function KeyMaterial(ecdhSecret: Bytes, kemSecret: Bytes): Option<Bytes> {
    if |ecdhSecret| < UINT32 && |kemSecret| < UINT32 then
      Some(Be32(|ecdhSecret|) + ecdhSecret + Be32(|kemSecret|) + kemSecret)
    else None
  }

  /** Cuts one length-prefixed part off the front. */
  function Unpack(b: Bytes): Option<(Bytes, Bytes)> {
    if |b| < 4 then None
    else
      var n := FromBe32(b[..4]);
      if |b| - 4 < n then None else Some((b[4..4 + n], b[4 + n..]))
  }

  lemma UnpackPacked(part: Bytes, rest: Bytes)
    requires |part| < UINT32
    ensures Unpack(Be32(|part|) + part + rest) == Some((part, rest))
  {
    var b := Be32(|part|) + part + rest;
    Be32RoundTrip(|part|);
    assert b[..4] == Be32(|part|);
    assert b[4..4 + |part|] == part && b[4 + |part|..] == rest;
  }

  /** The key material determines both secrets. */
  lemma KeyMaterialInjective(e: Bytes, m: Bytes, e': Bytes, m': Bytes)
    requires KeyMaterial(e, m).Some? && KeyMaterial(e, m) == KeyMaterial(e', m')
    ensures e == e' && m == m'
  {
    var k, k' := Be32(|m|) + m, Be32(|m'|) + m';
    assert KeyMaterial(e, m).value == Be32(|e|) + e + k;
    assert KeyMaterial(e', m').value == Be32(|e'|) + e' + k';
    UnpackPacked(e, k);
    UnpackPacked(e', k');
    assert k == k + [] && k' == k' + [];
    UnpackPacked(m, []);
    UnpackPacked(m', []);
  }

  /** The two HKDF calls of derive_hybrid_kek. */
  function Extract(c: Crypto, ikm: Bytes): Bytes {
    c.hkdf(Some("UPCE-PFCE-HYBRID-SALT-V1"), "", [], ikm)
  }

  function ExpandKek(c: Crypto, transcript: Digest, prk: Bytes): Bytes {
    c.hkdf(None, "UPCE-PFCE/KEK", transcript, prk)
  }

  /** What is extracted from two secrets; empty when they cannot be packed. */
  function PrkOf(c: Crypto, ecdhSecret: Bytes, kemSecret: Bytes): Bytes {
    match KeyMaterial(ecdhSecret, kemSecret)
    case None => []
    case Some(ikm) => Extract(c, ikm)
  }

  function DeriveKek(c: Crypto, ecdhSecret: Bytes, kemSecret: Bytes, transcript: Digest): Option<Bytes> {
    match KeyMaterial(ecdhSecret, kemSecret)
    case None => None
    case Some(ikm) => Some(ExpandKek(c, transcript, Extract(c, ikm)))
  }

  /** Two different inputs of HKDF's extract step, under the salt of the protocol. */
  predicate ExtractCollision(c: Crypto, ikm: Bytes, ikm': Bytes) {
    ikm != ikm' && c.hkdf(Some("UPCE-PFCE-HYBRID-SALT-V1"), "", [], ikm)
        == c.hkdf(Some("UPCE-PFCE-HYBRID-SALT-V1"), "", [], ikm')
  }

  /** Two different transcripts or extracts that HKDF expands, under the label of the protocol, to one key. */
  predicate ExpandCollision(c: Crypto, t: Digest, prk: Bytes, t': Digest, prk': Bytes) {
    (t != t' || prk != prk') && c.hkdf(None, "UPCE-PFCE/KEK", t, prk) == c.hkdf(None, "UPCE-PFCE/KEK", t', prk')
  }

  /** Each secret behind its length in four bytes, the longest first byte first. */
  function Packed(e: Bytes, m: Bytes): Bytes
    requires |e| < UINT32 && |m| < UINT32
  {
    Be32(|e|) + e + Be32(|m|) + m
  }

  /** A key determines the transcript and both secrets: keys that are equal were derived from the same
      three, or HKDF collides on the packed secrets, or on what it extracted from them. */
  lemma KekBindsSecrets(c: Crypto, e: Bytes, m: Bytes, t: Digest, e': Bytes, m': Bytes, t': Digest)
    requires DeriveKek(c, e, m, t).Some? && DeriveKek(c, e, m, t) == DeriveKek(c, e', m', t')
    ensures |e| < UINT32 && |m| < UINT32 && |e'| < UINT32 && |m'| < UINT32
    ensures var ikm, ikm' := Packed(e, m), Packed(e', m');
            || (e == e' && m == m' && t == t')
            || ExtractCollision(c, ikm, ikm')
            || ExpandCollision(c, t, c.hkdf(Some("UPCE-PFCE-HYBRID-SALT-V1"), "", [], ikm),
                               t', c.hkdf(Some("UPCE-PFCE-HYBRID-SALT-V1"), "", [], ikm'))
  {
    if Packed(e, m) == Packed(e', m') {
      KeyMaterialInjective(e, m, e', m');
    }
  }

  // ---- Establishing and recovering the key ----

  datatype HybridMeta = HybridMeta(
    enabled: bool, mode: string, keyVersion: nat, kemCiphertext: string, ephemeralPublic: Bytes)

  const DISABLED := HybridMeta(false, "", 0, "", [])

  /** Fresh randomness of one transfer, and whether liboqs can be used. */
  datatype Randomness = Randomness(kemAvailable: bool, ephemeral: Bytes, coins: Bytes, generation: Generation)

  datatype Setup = Setup(kek: Option<Bytes>, meta: HybridMeta, registry: Table)

  /** What the upload's transcript binds. */
  function UploadInputs(c: Crypto, active: ActiveKey, senderId: string, receiverId: string, transferId: string,
                        prekeyPublic: Bytes, r: Randomness): Inputs
  {
    Inputs(transferId, senderId, receiverId, c.ecPublic(r.ephemeral), prekeyPublic,
           c.kemEncapsulate(active.publicKey, r.coins).0, active.publicKey)
  }

  /** What the upload extracts from its two secrets. */
  function UploadPrk(c: Crypto, active: ActiveKey, prekeyPublic: Bytes, r: Randomness): Bytes {
    match c.ecExchange(r.ephemeral, prekeyPublic)
    case None => []
    case Some(ecdhSecret) => PrkOf(c, ecdhSecret, c.kemEncapsulate(active.publicKey, r.coins).1)
  }

  /** The key of initialize_transfer_security once the receiver has an active key. */
  function Establish(c: Crypto, rows: Table, active: ActiveKey, senderId: string, receiverId: string,
                     transferId: string, prekeyPublic: Bytes, r: Randomness): Setup
  {
    var (ciphertext, kemSecret) := c.kemEncapsulate(active.publicKey, r.coins);
    match c.ecExchange(r.ephemeral, prekeyPublic)
    case None => Setup(None, DISABLED, rows)
    case Some(ecdhSecret) =>
      var inputs := UploadInputs(c, active, senderId, receiverId, transferId, prekeyPublic, r);
      match DeriveKek(c, ecdhSecret, kemSecret, Transcript(c.lib, inputs))
      case None => Setup(None, DISABLED, rows)
      case Some(kek) =>
        Setup(Some(kek), HybridMeta(true, "HYBRID", active.version, c.base64(ciphertext), c.ecPublic(r.ephemeral)),
              rows)
  }

  /** initialize_transfer_security: without a prekey, or on any exception, the
      transfer is not hybrid; a missing receiver key is generated first. */
  function Initialize(c: Crypto, masterKey: Bytes, rows: Table, senderId: string, receiverId: string,
                      transferId: string, prekeyPublic: Option<Bytes>, r: Randomness): Setup
  {
    if prekeyPublic.None? || !r.kemAvailable then Setup(None, DISABLED, rows)
    else
      var rows' := if GetActive(c, rows, receiverId).Err?
                   then Generate(c, masterKey, rows, receiverId, r.generation.seed, r.generation.nonce,
                                 r.generation.now)
                   else rows;
      match GetActive(c, rows', receiverId)
      case Err(_) => Setup(None, DISABLED, rows')
      case Ok(active) => Establish(c, rows', active, senderId, receiverId, transferId, prekeyPublic.value, r)
  }

  datatype KexError = MissingPrekey | PolicyMismatch

  /** recover_transfer_security: the secret under the recorded version, but the
      transcript with the currently active public key. */
  function Recover(c: Crypto, masterKey: Bytes, rows: Table, senderId: string, receiverId: string, transferId: string,
                   meta: HybridMeta, prekeyPrivate: Option<Bytes>): Result<Option<Bytes>, KexError>
  {
    if !meta.enabled || meta.mode != "HYBRID" then Ok(None)
    else if prekeyPrivate.None? then Err(MissingPrekey)
    else match RecoverKek(c, masterKey, rows, senderId, receiverId, transferId, meta, prekeyPrivate.value)
      case None => Err(PolicyMismatch)
      case Some(kek) => Ok(Some(kek))
  }

  function RecoverKek(c: Crypto, masterKey: Bytes, rows: Table, senderId: string, receiverId: string,
                      transferId: string, meta: HybridMeta, prekeyPrivate: Bytes): Option<Bytes>
  {
    match c.unbase64(meta.kemCiphertext)
    case None => None
    case Some(ciphertext) =>
      match (Decapsulate(c, masterKey, rows, ciphertext, receiverId, meta.keyVersion),
             GetActive(c, rows, receiverId),
             c.ecExchange(prekeyPrivate, meta.ephemeralPublic))
      case (Ok(kemSecret), Ok(active), Some(ecdhSecret)) =>
        DeriveKek(c, ecdhSecret, kemSecret, Transcript(c.lib,
          RecoveryInputs(c, senderId, receiverId, transferId, meta, prekeyPrivate, ciphertext, active)))
      case _ => None
  }

  function RecoveryInputs(c: Crypto, senderId: string, receiverId: string, transferId: string, meta: HybridMeta,
                          prekeyPrivate: Bytes, ciphertext: Bytes, active: ActiveKey): Inputs
  {
    Inputs(transferId, senderId, receiverId, meta.ephemeralPublic, c.ecPublic(prekeyPrivate), ciphertext,
           active.publicKey)
  }

  /** The registry that Initialize leaves is valid, and the key it used is active. */
  lemma InitializeRegistry(c: Crypto, masterKey: Bytes, rows: Table, senderId: string, receiverId: string,
                           transferId: string, prekeyPublic: Option<Bytes>, r: Randomness)
    requires c.Lawful() && Valid(c, masterKey, rows)
    ensures var setup := Initialize(c, masterKey, rows, senderId, receiverId, transferId, prekeyPublic, r);
            && Valid(c, masterKey, setup.registry) && Later(rows, setup.registry)
            && (setup.kek.Some? ==> GetActive(c, setup.registry, receiverId).Ok?)
  {
    GenerateOk(c, masterKey, rows, r.generation.(user := receiverId));
  }

  /** Without a prekey, or without a usable library, a transfer is not hybrid and no key is generated. */
  lemma SetupDeclines(c: Crypto, masterKey: Bytes, rows: Table, senderId: string, receiverId: string,
                      transferId: string, prekeyPublic: Option<Bytes>, r: Randomness)
    requires prekeyPublic == None || !r.kemAvailable
    ensures var setup := Initialize(c, masterKey, rows, senderId, receiverId, transferId, prekeyPublic, r);
            setup.kek == None && !setup.meta.enabled && setup.registry == rows
  {}

  /** A hybrid set-up is the establishment with the key active afterwards. */
  lemma InitializeEstablishes(c: Crypto, masterKey: Bytes, rows: Table, senderId: string, receiverId: string,
                              transferId: string, prekeyPublic: Bytes, r: Randomness)
    ensures var setup := Initialize(c, masterKey, rows, senderId, receiverId, transferId, Some(prekeyPublic), r);
            setup.kek.Some? ==>
              && GetActive(c, setup.registry, receiverId).Ok?
              && setup == Establish(c, setup.registry, GetActive(c, setup.registry, receiverId).value, senderId,
                                    receiverId,
                                    transferId, prekeyPublic, r)
  {}

  /** Two transfers with one key agree in everything the key depends on: both secrets and all seven inputs of
      the transcript. Otherwise HKDF collides on their packed secrets or extracts, or SHA-256 on what the
      transcripts hash. */
  lemma SameKekSameSetup(c: Crypto, rows: Table, active: ActiveKey, senderId: string, receiverId: string,
                         transferId: string, prekeyPublic: Bytes, r: Randomness,
                         rows': Table, active': ActiveKey, senderId': string, receiverId': string,
                         transferId': string, prekeyPublic': Bytes, r': Randomness)
    requires c.lib.Lawful()
    requires var setup := Establish(c, rows, active, senderId, receiverId, transferId, prekeyPublic, r);
             setup.kek.Some? && setup.kek == Establish(c, rows', active', senderId', receiverId', transferId',
                                                       prekeyPublic', r').kek
    ensures c.ecExchange(r.ephemeral, prekeyPublic).Some? && c.ecExchange(r'.ephemeral, prekeyPublic').Some?
    ensures var (e, e') := (c.ecExchange(r.ephemeral, prekeyPublic).value,
                            c.ecExchange(r'.ephemeral, prekeyPublic').value);
            var (m, m') := (c.kemEncapsulate(active.publicKey, r.coins).1,
                            c.kemEncapsulate(active'.publicKey, r'.coins).1);
            var x := Inputs(transferId, senderId, receiverId, c.ecPublic(r.ephemeral), prekeyPublic,
                            c.kemEncapsulate(active.publicKey, r.coins).0, active.publicKey);
            var y := Inputs(transferId', senderId', receiverId', c.ecPublic(r'.ephemeral), prekeyPublic',
                            c.kemEncapsulate(active'.publicKey, r'.coins).0, active'.publicKey);
            && |e| < UINT32 && |m| < UINT32 && |e'| < UINT32 && |m'| < UINT32
            && (|| (e == e' && m == m' && x == y)
                || TranscriptCollision(c.lib, x, y)
                || ExtractCollision(c, Packed(e, m), Packed(e', m'))
                || ExpandCollision(c, Transcript(c.lib, x),
                                   c.hkdf(Some("UPCE-PFCE-HYBRID-SALT-V1"), "", [], Packed(e, m)),
                                   Transcript(c.lib, y),
                                   c.hkdf(Some("UPCE-PFCE-HYBRID-SALT-V1"), "", [], Packed(e', m'))))
  {
    var (e, e') := (c.ecExchange(r.ephemeral, prekeyPublic).value, c.ecExchange(r'.ephemeral, prekeyPublic').value);
    var (m, m') := (c.kemEncapsulate(active.publicKey, r.coins).1, c.kemEncapsulate(active'.publicKey, r'.coins).1);
    var x := UploadInputs(c, active, senderId, receiverId, transferId, prekeyPublic, r);
    var y := UploadInputs(c, active', senderId', receiverId', transferId', prekeyPublic', r');
    KekBindsSecrets(c, e, m, Transcript(c.lib, x), e', m', Transcript(c.lib, y));
    if Transcript(c.lib, x) == Transcript(c.lib, y) {
      TranscriptBinds(c.lib, x, y);
    }
  }

  /** Both keys, given the ingredients of recovery: one extract, expanded under the transcripts of two
      public keys. */
  lemma EstablishedKeys(c: Crypto, masterKey: Bytes, registry: Table, rows: Table, active: ActiveKey,
                        senderId: string, receiverId: string, transferId: string, prekeyPrivate: Bytes,
                        r: Randomness)
    requires c.Base64Law() && c.EcLaw() && c.ecValid(prekeyPrivate) && c.ecValid(r.ephemeral)
    requires GetActive(c, rows, receiverId).Ok?
    requires var sent := c.kemEncapsulate(active.publicKey, r.coins);
             Decapsulate(c, masterKey, rows, sent.0, receiverId, active.version) == Ok(sent.1)
    requires Establish(c, registry, active, senderId, receiverId, transferId, c.ecPublic(prekeyPrivate), r).kek.Some?
    ensures var setup := Establish(c, registry, active, senderId, receiverId, transferId, c.ecPublic(prekeyPrivate), r);
            var x := UploadInputs(c, active, senderId, receiverId, transferId, c.ecPublic(prekeyPrivate), r);
            var y := x.(kemPublic := GetActive(c, rows, receiverId).value.publicKey);
            var prk := UploadPrk(c, active, c.ecPublic(prekeyPrivate), r);
            && setup.kek == Some(ExpandKek(c, Transcript(c.lib, x), prk))
            && Recover(c, masterKey, rows, senderId, receiverId, transferId, setup.meta, Some(prekeyPrivate)) ==
               Ok(Some(ExpandKek(c, Transcript(c.lib, y), prk)))
  {
    var setup := Establish(c, registry, active, senderId, receiverId, transferId, c.ecPublic(prekeyPrivate), r);
    var ciphertext := c.kemEncapsulate(active.publicKey, r.coins).0;
    assert c.EcAgrees(prekeyPrivate, r.ephemeral);
    assert c.Base64Opens(ciphertext);
    var x := UploadInputs(c, active, senderId, receiverId, transferId, c.ecPublic(prekeyPrivate), r);
    assert RecoveryInputs(c, senderId, receiverId, transferId, setup.meta, prekeyPrivate, ciphertext,
                          GetActive(c, rows, receiverId).value)
        == x.(kemPublic := GetActive(c, rows, receiverId).value.publicKey);
  }

  /** The sender's and the receiver's key, whatever was rotated in between. */
  lemma KeysAfterRotations(c: Crypto, masterKey: Bytes, rows: Table, senderId: string, receiverId: string,
                           transferId: string, prekeyPrivate: Bytes, r: Randomness, gs: seq<Generation>)
    requires c.Lawful() && Valid(c, masterKey, rows) && c.ecValid(prekeyPrivate) && c.ecValid(r.ephemeral)
    requires Initialize(c, masterKey, rows, senderId, receiverId, transferId, Some(c.ecPublic(prekeyPrivate)),
                        r).kek.Some?
    ensures var setup := Initialize(c, masterKey, rows, senderId, receiverId, transferId,
                                    Some(c.ecPublic(prekeyPrivate)), r);
            var rows' := Rotations(c, masterKey, setup.registry, gs);
            var (sent, now) := (GetActive(c, setup.registry, receiverId), GetActive(c, rows', receiverId));
            && sent.Ok? && now.Ok?
            && var x := UploadInputs(c, sent.value, senderId, receiverId, transferId, c.ecPublic(prekeyPrivate), r);
               var y := x.(kemPublic := now.value.publicKey);
               var prk := UploadPrk(c, sent.value, c.ecPublic(prekeyPrivate), r);
               && setup.kek == Some(ExpandKek(c, Transcript(c.lib, x), prk))
               && Recover(c, masterKey, rows', senderId, receiverId, transferId, setup.meta, Some(prekeyPrivate)) ==
                  Ok(Some(ExpandKek(c, Transcript(c.lib, y), prk)))
  {
    var prekeyPublic := c.ecPublic(prekeyPrivate);
    var setup := Initialize(c, masterKey, rows, senderId, receiverId, transferId, Some(prekeyPublic), r);
    InitializeRegistry(c, masterKey, rows, senderId, receiverId, transferId, Some(prekeyPublic), r);
    InitializeEstablishes(c, masterKey, rows, senderId, receiverId, transferId, prekeyPublic, r);
    StillActive(c, masterKey, setup.registry, gs, receiverId);
    DecapsulateLater(c, masterKey, setup.registry, FindActive(setup.registry, receiverId).value, gs, r.coins);
    EstablishedKeys(c, masterKey, setup.registry, Rotations(c, masterKey, setup.registry, gs),
                    GetActive(c, setup.registry, receiverId).value, senderId, receiverId, transferId, prekeyPrivate, r);
  }

  /** KEK agreement. After any rotations that leave the receiver's active key as it
      was, the receiver recovers the sender's key from the prekey's private half. */
  lemma KekAgreement(c: Crypto, masterKey: Bytes, rows: Table, senderId: string, receiverId: string, transferId: string,
                     prekeyPrivate: Bytes, r: Randomness, gs: seq<Generation>)
    requires c.Lawful() && Valid(c, masterKey, rows) && c.ecValid(prekeyPrivate) && c.ecValid(r.ephemeral)
    requires forall g <- gs :: g.user != receiverId
    ensures var setup := Initialize(c, masterKey, rows, senderId, receiverId, transferId,
                                    Some(c.ecPublic(prekeyPrivate)), r);
            setup.kek.Some? ==>
              Recover(c, masterKey, Rotations(c, masterKey, setup.registry, gs), senderId, receiverId, transferId,
                      setup.meta, Some(prekeyPrivate)) == Ok(setup.kek)
  {
    var prekeyPublic := c.ecPublic(prekeyPrivate);
    var setup := Initialize(c, masterKey, rows, senderId, receiverId, transferId, Some(prekeyPublic), r);
    InitializeRegistry(c, masterKey, rows, senderId, receiverId, transferId, Some(prekeyPublic), r);
    if setup.kek.Some? {
      KeysAfterRotations(c, masterKey, rows, senderId, receiverId, transferId, prekeyPrivate, r, gs);
      OthersRotate(c, masterKey, setup.registry, gs, receiverId);
      var (sent, now) := (GetActive(c, setup.registry, receiverId),
                          GetActive(c, Rotations(c, masterKey, setup.registry, gs), receiverId));
      var x := UploadInputs(c, sent.value, senderId, receiverId, transferId, prekeyPublic, r);
      assert x.(kemPublic := now.value.publicKey) == x;
    }
  }

  lemma SameActive(c: Crypto, masterKey: Bytes, rows: Table, rows': Table, user: string)
    requires Valid(c, masterKey, rows) && Valid(c, masterKey, rows') && OfUser(rows, user) == OfUser(rows', user)
    ensures GetActive(c, rows, user) == GetActive(c, rows', user)
  {
    ActiveIsNewest(c, masterKey, rows, user);
    ActiveIsNewest(c, masterKey, rows', user);
    var keys := OfUser(rows, user);
    if keys != [] {
      ExactlyOneActive(c, masterKey, rows, user);
      ExactlyOneActive(c, masterKey, rows', user);
    }
  }

  /** The two HKDF calls that would have to agree for a wrong transcript to go
      unnoticed: same label, different context. */
  predicate KdfCollision(c: Crypto, t: Digest, prk: Bytes, t': Digest, prk': Bytes) {
    t != t' && ExpandKek(c, t, prk) == ExpandKek(c, t', prk')
  }

  /** Equal keys from different inputs exhibit a collision of SHA-256, or of HKDF on what was extracted. */
  lemma AgreementNeedsSameInputs(c: Crypto, e: Bytes, m: Bytes, x: Inputs, e': Bytes, m': Bytes, y: Inputs)
    requires c.lib.Lawful() && DeriveKek(c, e, m, Transcript(c.lib, x)).Some?
    requires DeriveKek(c, e, m, Transcript(c.lib, x)) == DeriveKek(c, e', m', Transcript(c.lib, y))
    ensures x == y || TranscriptCollision(c.lib, x, y)
        || KdfCollision(c, Transcript(c.lib, x), PrkOf(c, e, m), Transcript(c.lib, y), PrkOf(c, e', m'))
  {
    if Transcript(c.lib, x) == Transcript(c.lib, y) {
      TranscriptBinds(c.lib, x, y);
    }
  }

  /** What recovery extracts from its two secrets. */
  function RecoveryPrk(c: Crypto, masterKey: Bytes, rows: Table, receiverId: string, meta: HybridMeta,
                       prekeyPrivate: Bytes): Bytes
  {
    match c.unbase64(meta.kemCiphertext)
    case None => []
    case Some(ciphertext) =>
      match (Decapsulate(c, masterKey, rows, ciphertext, receiverId, meta.keyVersion),
             c.ecExchange(prekeyPrivate, meta.ephemeralPublic))
      case (Ok(kemSecret), Some(ecdhSecret)) => PrkOf(c, ecdhSecret, kemSecret)
      case _ => []
  }

  /** Agreement fails once the receiver's active key is another one, in any registry: recovery hashes the
      new public key, so it can only reach the sender's key if the two transcripts, or the two expansions
      of what was extracted, collide. */
  lemma RotationBreaksAgreement(c: Crypto, masterKey: Bytes, registry: Table, rows: Table, active: ActiveKey,
                                senderId: string, receiverId: string, transferId: string, prekeyPrivate: Bytes,
                                r: Randomness)
    requires c.Lawful() && GetActive(c, rows, receiverId).Ok?
    requires GetActive(c, rows, receiverId).value.publicKey != active.publicKey
    requires var setup := Establish(c, registry, active, senderId, receiverId, transferId, c.ecPublic(prekeyPrivate),
                                    r);
             setup.kek.Some? && Recover(c, masterKey, rows, senderId, receiverId, transferId, setup.meta,
                                        Some(prekeyPrivate)) == Ok(setup.kek)
    ensures var meta := Establish(c, registry, active, senderId, receiverId, transferId, c.ecPublic(prekeyPrivate),
                                  r).meta;
            var x := UploadInputs(c, active, senderId, receiverId, transferId, c.ecPublic(prekeyPrivate), r);
            var y := x.(kemPublic := GetActive(c, rows, receiverId).value.publicKey);
            || TranscriptCollision(c.lib, x, y)
            || KdfCollision(c, Transcript(c.lib, x), UploadPrk(c, active, c.ecPublic(prekeyPrivate), r),
                            Transcript(c.lib, y), RecoveryPrk(c, masterKey, rows, receiverId, meta, prekeyPrivate))
  {
    var prekeyPublic := c.ecPublic(prekeyPrivate);
    var setup := Establish(c, registry, active, senderId, receiverId, transferId, prekeyPublic, r);
    var (ciphertext, kemSecret) := c.kemEncapsulate(active.publicKey, r.coins);
    var x := UploadInputs(c, active, senderId, receiverId, transferId, prekeyPublic, r);
    var y := RecoveryInputs(c, senderId, receiverId, transferId, setup.meta, prekeyPrivate, ciphertext,
                            GetActive(c, rows, receiverId).value);
    assert c.Base64Opens(ciphertext);
    assert y == x.(kemPublic := GetActive(c, rows, receiverId).value.publicKey);
    AgreementNeedsSameInputs(
      c, c.ecExchange(r.ephemeral, prekeyPublic).value, kemSecret, x,
      c.ecExchange(prekeyPrivate, setup.meta.ephemeralPublic).value,
      Decapsulate(c, masterKey, rows, ciphertext, receiverId, setup.meta.keyVersion).value, y);
  }

  /** A user who has an active key still has one after any rotations. */
  lemma StillActive(c: Crypto, masterKey: Bytes, rows: Table, gs: seq<Generation>, user: string)
    requires c.Lawful() && Valid(c, masterKey, rows) && GetActive(c, rows, user).Ok?
    ensures GetActive(c, Rotations(c, masterKey, rows, gs), user).Ok?
  {
    var rows' := Rotations(c, masterKey, rows, gs);
    var i := FindActive(rows, user).value;
    RotationsOk(c, masterKey, rows, gs);
    assert SameKey(rows[i], rows'[i]);
    AtRank(rows', i);
    HasActiveKey(c, masterKey, rows', user);
  }

  /** Transcripts of inputs that differ at most in the ML-KEM key are equal exactly when the inputs are or collide. */
  lemma SameTranscriptExactly(lib: Library, x: Inputs, kemPublic: Bytes)
    requires lib.Lawful()
    ensures var y := x.(kemPublic := kemPublic);
            Transcript(lib, x) == Transcript(lib, y) <==> x.kemPublic == kemPublic || TranscriptCollision(lib, x, y)
  {
    var y := x.(kemPublic := kemPublic);
    if Transcript(lib, x) == Transcript(lib, y) {
      TranscriptBinds(lib, x, y);
    }
    if lib.sha(x.kemPublic) == lib.sha(kemPublic) {
      assert TranscriptFields(lib, x) == TranscriptFields(lib, y);
    }
  }

  /** KEK agreement exactly. After any rotations, the receiver's own included, the receiver recovers the
      sender's key if and only if the public half of its active key is the one of the upload, or the two
      transcripts collide, or what the upload extracted expands to one key under both. */
  lemma KekAgreementExactly(c: Crypto, masterKey: Bytes, rows: Table, senderId: string, receiverId: string,
                            transferId: string, prekeyPrivate: Bytes, r: Randomness, gs: seq<Generation>)
    requires c.Lawful() && Valid(c, masterKey, rows) && c.ecValid(prekeyPrivate) && c.ecValid(r.ephemeral)
    requires Initialize(c, masterKey, rows, senderId, receiverId, transferId, Some(c.ecPublic(prekeyPrivate)),
                        r).kek.Some?
    ensures var setup := Initialize(c, masterKey, rows, senderId, receiverId, transferId,
                                    Some(c.ecPublic(prekeyPrivate)), r);
            var rows' := Rotations(c, masterKey, setup.registry, gs);
            var (sent, now) := (GetActive(c, setup.registry, receiverId), GetActive(c, rows', receiverId));
            && sent.Ok? && now.Ok?
            && var x := UploadInputs(c, sent.value, senderId, receiverId, transferId, c.ecPublic(prekeyPrivate), r);
               var y := x.(kemPublic := now.value.publicKey);
               var prk := UploadPrk(c, sent.value, c.ecPublic(prekeyPrivate), r);
               Recover(c, masterKey, rows', senderId, receiverId, transferId, setup.meta, Some(prekeyPrivate)) ==
                   Ok(setup.kek)
               <==> || sent.value.publicKey == now.value.publicKey
                    || TranscriptCollision(c.lib, x, y)
                    || KdfCollision(c, Transcript(c.lib, x), prk, Transcript(c.lib, y), prk)
  {
    KeysAfterRotations(c, masterKey, rows, senderId, receiverId, transferId, prekeyPrivate, r, gs);
    var setup := Initialize(c, masterKey, rows, senderId, receiverId, transferId, Some(c.ecPublic(prekeyPrivate)), r);
    var rows' := Rotations(c, masterKey, setup.registry, gs);
    var x := UploadInputs(c, GetActive(c, setup.registry, receiverId).value, senderId, receiverId, transferId,
                          c.ecPublic(prekeyPrivate), r);
    SameTranscriptExactly(c.lib, x, GetActive(c, rows', receiverId).value.publicKey);
  }

  /** The receiver's active public key is the one it was. */
  predicate SameReceiverKey(c: Crypto, rows: Table, rows': Table, user: string) {
    && GetActive(c, rows, user).Ok? && GetActive(c, rows', user).Ok?
    && GetActive(c, rows, user).value.publicKey == GetActive(c, rows', user).value.publicKey
  }

  /** Rotations of other users leave it so. */
  lemma OthersRotate(c: Crypto, masterKey: Bytes, rows: Table, gs: seq<Generation>, user: string)
    requires c.Lawful() && Valid(c, masterKey, rows) && GetActive(c, rows, user).Ok? && forall g <- gs :: g.user != user
    ensures SameReceiverKey(c, rows, Rotations(c, masterKey, rows, gs), user)
  {
    RotationsOk(c, masterKey, rows, gs);
    SameActive(c, masterKey, rows, Rotations(c, masterKey, rows, gs), user);
  }

  lemma EstablishSucceeds(c: Crypto, rows: Table, active: ActiveKey, senderId: string, receiverId: string,
                          transferId: string, prekeyPublic: Bytes, r: Randomness)
    requires c.ecExchange(r.ephemeral, prekeyPublic).Some? && |c.ecExchange(r.ephemeral, prekeyPublic).value| < UINT32
    requires |c.kemEncapsulate(active.publicKey, r.coins).1| < UINT32
    ensures var setup := Establish(c, rows, active, senderId, receiverId, transferId, prekeyPublic, r);
            setup.kek.Some? && setup.meta.enabled && setup.meta.mode == "HYBRID"
                && setup.meta.keyVersion == active.version
            && setup.registry == rows
  {}

  /** Set-up does succeed: with a valid prekey, a usable ML-KEM library and secrets
      that fit a 32-bit length the transfer is hybrid and records the version used. */
  lemma SetupSucceeds(c: Crypto, masterKey: Bytes, rows: Table, senderId: string, receiverId: string,
                      transferId: string, prekeyPrivate: Bytes, r: Randomness)
    requires c.Lawful() && Valid(c, masterKey, rows) && c.ecValid(prekeyPrivate) && c.ecValid(r.ephemeral)
        && r.kemAvailable
    requires forall e :: c.ecExchange(r.ephemeral, c.ecPublic(prekeyPrivate)) == Some(e) ==> |e| < UINT32
    requires forall pk :: |c.kemEncapsulate(pk, r.coins).1| < UINT32
    ensures var setup := Initialize(c, masterKey, rows, senderId, receiverId, transferId,
                                    Some(c.ecPublic(prekeyPrivate)), r);
            && setup.kek.Some? && setup.meta.enabled && setup.meta.mode == "HYBRID"
            && GetActive(c, setup.registry, receiverId).Ok?
            && setup.meta.keyVersion == GetActive(c, setup.registry, receiverId).value.version
  {
    HasActiveKey(c, masterKey, rows, receiverId);
    var g := r.generation.(user := receiverId);
    var rows' := if GetActive(c, rows, receiverId).Err?
        then Generate(c, masterKey, rows, receiverId, g.seed, g.nonce, g.now) else rows;
    GenerateOk(c, masterKey, rows, g);
    HasActiveKey(c, masterKey, rows', receiverId);
    assert c.EcAgrees(r.ephemeral, prekeyPrivate);
    var active := GetActive(c, rows', receiverId).value;
    EstablishSucceeds(c, rows', active, senderId, receiverId, transferId, c.ecPublic(prekeyPrivate), r);
    assert Initialize(c, masterKey, rows, senderId, receiverId, transferId, Some(c.ecPublic(prekeyPrivate)), r)
        == Establish(c, rows', active, senderId, receiverId, transferId, c.ecPublic(prekeyPrivate), r);
  }

  /** In a valid registry only users without keys lack a usable active one. */
  lemma HasActiveKey(c: Crypto, masterKey: Bytes, rows: Table, user: string)
    requires Valid(c, masterKey, rows)
    ensures GetActive(c, rows, user).Err? <==> OfUser(rows, user) == []
  {
    ActiveIsNewest(c, masterKey, rows, user);
    var i := FindActive(rows, user);
    if i.Some? {
      var seed :| PairedBy(c, masterKey, rows[i.value], seed);
    }
  }

  // ---- A rotation after which the keys differ ----

  function Mark(n: byte): (d: Digest)
    ensures d[0] == n
  {
    [n] + Zeros(31)
  }

  /** A digest that tells one key and one text apart from everything else. */
  function Telling(key: Bytes, text: Bytes): Hash {
    (b: seq<byte>) => if b == key then Mark(1) else if b == text then Mark(2) else Mark(0)
  }

  lemma TellsKeysApart(lib: Library, x: Inputs, kemPublic: Bytes)
    requires lib.sha(x.kemPublic) != lib.sha(kemPublic)
    ensures TranscriptFields(lib, x) != TranscriptFields(lib, x.(kemPublic := kemPublic))
  {
    var fx, fy := TranscriptFields(lib, x), TranscriptFields(lib, x.(kemPublic := kemPublic));
    if fx[5] == fy[5] {
      lib.SameHexDigest(x.kemPublic, kemPublic);
    }
  }

  lemma SameFields(a: Library, b: Library, x: Inputs)
    requires a.sha(x.ephemeralPublic) == b.sha(x.ephemeralPublic) && a.sha(x.receiverPublic) == b.sha(x.receiverPublic)
    requires a.sha(x.kemCiphertext) == b.sha(x.kemCiphertext) && a.sha(x.kemPublic) == b.sha(x.kemPublic)
    ensures TranscriptFields(a, x) == TranscriptFields(b, x)
  {}

  /** A dump is longer than the keys of the counterexample. */
  ghost predicate LongDumps(lib: Library) {
    forall fields :: |lib.dumps(fields)| >= 2
  }

  /** The library of the counterexample: its digest tells the transcripts of two short keys apart. */
  lemma TellingLibrary(any: Library, x: Inputs, kemPublic: Bytes) returns (lib: Library)
    requires any.Lawful() && LongDumps(any)
    requires x.kemPublic != kemPublic && |x.kemPublic| <= 1 && |kemPublic| <= 1
    requires |x.ephemeralPublic| <= 1 && |x.receiverPublic| <= 1 && |x.kemCiphertext| <= 1
    ensures lib.Lawful() && lib.dumps == any.dumps
    ensures Transcript(lib, x)[0] == 2 && Transcript(lib, x.(kemPublic := kemPublic))[0] == 0
  {
    var base := Library(Telling(x.kemPublic, x.kemPublic), any.dumps);
    var text := any.dumps(TranscriptFields(base, x));
    lib := Library(Telling(x.kemPublic, text), any.dumps);
    forall a, b ensures lib.Determines(a, b) {
      assert any.Determines(a, b);
    }
    SameFields(lib, base, x);
    TellsKeysApart(lib, x, kemPublic);
    var other := TranscriptFields(lib, x.(kemPublic := kemPublic));
    assert lib.Determines(TranscriptFields(lib, x), other);
    assert lib.sha(any.dumps(other)) == Mark(0);
  }

  /** What the two participants do in the counterexample. */
  function FirstKey(receiverId: string): Randomness {
    Randomness(true, [], [], Generation(receiverId, [1], [], 0))
  }

  function SecondKey(receiverId: string): Generation {
    Generation(receiverId, [2], [], 0)
  }

  /** The registry of the counterexample, at upload and at download. */
  lemma RotatedRegistry(c: Crypto, masterKey: Bytes, receiverId: string) returns (rows: Table)
    requires c.AeadLaw() && c.Base64Law() && c.kemKeyPair([1]).0 == [1] && c.kemKeyPair([2]).0 == [2]
    ensures rows == Generate(c, masterKey, [], receiverId, [1], [], 0) && Valid(c, masterKey, rows)
    ensures GetActive(c, [], receiverId).Err? && GetActive(c, rows, receiverId).Ok?
    ensures GetActive(c, rows, receiverId).value.publicKey == [1]
    ensures var rows' := Rotations(c, masterKey, rows, [SecondKey(receiverId)]);
            GetActive(c, rows', receiverId).Ok? && GetActive(c, rows', receiverId).value.publicKey == [2]
  {
    rows := Generate(c, masterKey, [], receiverId, [1], [], 0);
    var g := SecondKey(receiverId);
    GenerateOk(c, masterKey, [], g.(seed := [1]));
    GeneratedActive(c, masterKey, [], g.(seed := [1]));
    GeneratedActive(c, masterKey, rows, g);
    assert [g][..0] == [] && Rotations(c, masterKey, rows, []) == rows;
  }

  /** An upload to a user without keys, a rotation of its key, and the key that recovery then yields; the
      prekey and all randomness but the seeds are empty. */
  predicate RunOf(c: Crypto, masterKey: Bytes, senderId: string, receiverId: string, transferId: string, setup: Setup,
                  rows: Table, recovered: Bytes)
  {
    && setup == Initialize(c, masterKey, [], senderId, receiverId, transferId, Some([]), FirstKey(receiverId))
    && rows == Rotations(c, masterKey, setup.registry, [SecondKey(receiverId)])
    && setup.kek.Some?
    && Recover(c, masterKey, rows, senderId, receiverId, transferId, setup.meta, Some([])) == Ok(Some(recovered))
  }

  /** What the counterexample needs of its schemes. */
  predicate EmptyKeys(c: Crypto) {
    && c.ecValid([]) && c.ecPublic([]) == [] && c.ecExchange([], []) == Some([])
    && c.kemKeyPair([1]).0 == [1] && c.kemKeyPair([2]).0 == [2] && c.kemEncapsulate([1], []) == ([], [])
  }

  /** Both keys of the counterexample. */
  lemma RotatedKeys(c: Crypto, masterKey: Bytes, x: Inputs)
    returns (setup: Setup, rows: Table, recovered: Bytes, prk: Bytes)
    requires c.Lawful() && EmptyKeys(c) && x == Inputs(x.transferId, x.senderId, x.receiverId, [], [], [], [1])
    ensures RunOf(c, masterKey, x.senderId, x.receiverId, x.transferId, setup, rows, recovered)
    ensures setup.kek == Some(ExpandKek(c, Transcript(c.lib, x), prk))
    ensures recovered == ExpandKek(c, Transcript(c.lib, x.(kemPublic := [2])), prk)
  {
    var (transferId, senderId, receiverId) := (x.transferId, x.senderId, x.receiverId);
    var r := FirstKey(receiverId);
    var registry := RotatedRegistry(c, masterKey, receiverId);
    var active := GetActive(c, registry, receiverId).value;
    setup := Initialize(c, masterKey, [], senderId, receiverId, transferId, Some([]), r);
    EstablishSucceeds(c, registry, active, senderId, receiverId, transferId, [], r);
    assert setup == Establish(c, registry, active, senderId, receiverId, transferId, [], r);
    rows := Rotations(c, masterKey, registry, [SecondKey(receiverId)]);
    prk := UploadPrk(c, active, [], r);
    recovered := ExpandKek(c, Transcript(c.lib, x.(kemPublic := [2])), prk);
    KeysAfterRotations(c, masterKey, [], senderId, receiverId, transferId, [], r, [SecondKey(receiverId)]);
    assert UploadInputs(c, active, senderId, receiverId, transferId, [], r) == x;
  }

  /** The real dump with a digest under which the two transcripts differ. */
  lemma RunLibrary(x: Inputs) returns (lib: Library)
    requires x.ephemeralPublic == x.receiverPublic == x.kemCiphertext == [] && x.kemPublic == [1]
    ensures lib.Lawful() && lib.dumps == Json.DumpsBytes
    ensures Transcript(lib, x)[0] == 2 && Transcript(lib, x.(kemPublic := [2]))[0] == 0
  {
    var any := Library(Telling([], []), Json.DumpsBytes);
    JsonLawful(any.sha);
    lib := TellingLibrary(any, x, [2]);
  }

  lemma PlainEmptyKeys(c: Crypto)
    requires Plain(c)
    ensures EmptyKeys(c) && c.kemEncapsulate([1], [7]).1 == [7]
  {
    assert Zeros(0) == [];
    assert PlainKeysAt(c, [], []) && PlainKeysAt(c, [1], []) && PlainKeysAt(c, [2], []) && PlainKeysAt(c, [1], [7]);
  }

  lemma ConcatenatedKek(c: Crypto, t: Digest, prk: Bytes)
    requires Plain(c)
    ensures ExpandKek(c, t, prk) == t + prk
  {
    assert ConcatenatesAt(c, None, "UPCE-PFCE/KEK", t, prk);
  }

  lemma KeysDiffer(c: Crypto, t: Digest, t': Digest, prk: Bytes)
    requires Plain(c) && t[0] != t'[0]
    ensures |ExpandKek(c, t, prk)| == |ExpandKek(c, t', prk)| && ExpandKek(c, t, prk) != ExpandKek(c, t', prk)
  {
    ConcatenatedKek(c, t, prk);
    ConcatenatedKek(c, t', prk);
    assert (t + prk)[0] == t[0];
  }

  lemma RunKeys(c: Crypto, masterKey: Bytes, x: Inputs) returns (setup: Setup, rows: Table, recovered: Bytes)
    requires c.Lawful() && EmptyKeys(c) && Plain(c)
    requires x == Inputs(x.transferId, x.senderId, x.receiverId, [], [], [], [1])
    requires Transcript(c.lib, x)[0] != Transcript(c.lib, x.(kemPublic := [2]))[0]
    ensures RunOf(c, masterKey, x.senderId, x.receiverId, x.transferId, setup, rows, recovered)
    ensures |recovered| == |setup.kek.value| && recovered != setup.kek.value
  {
    var prk;
    setup, rows, recovered, prk := RotatedKeys(c, masterKey, x);
    KeysDiffer(c, Transcript(c.lib, x), Transcript(c.lib, x.(kemPublic := [2])), prk);
  }

  /** A run after which the keys differ, for any participants and master key: the receiver's first key is
      generated for the upload, its second before the download. */
  lemma RotationRun(masterKey: Bytes, senderId: string, receiverId: string, transferId: string)
    returns (c: Crypto, setup: Setup, rows: Table, recovered: Bytes)
    ensures c.Lawful() && Plain(c)
    ensures RunOf(c, masterKey, senderId, receiverId, transferId, setup, rows, recovered)
    ensures |recovered| == |setup.kek.value| && recovered != setup.kek.value
  {
    var x := Inputs(transferId, senderId, receiverId, [], [], [], [1]);
    var lib := RunLibrary(x);
    c := LawsHoldOfSomething(lib);
    PlainEmptyKeys(c);
    setup, rows, recovered := RunKeys(c, masterKey, x);
  }

  // ---- A secret whose change changes the key ----

  lemma PrefixApart(t: Bytes, a: Bytes, b: Bytes)
    requires a != b
    ensures t + a != t + b
  {
    assert (t + a)[|t|..] == a && (t + b)[|t|..] == b;
  }

  /** There are schemes under which no two pairs of secrets share a key. */
  lemma ConcatenatedBinds(c: Crypto, e: Bytes, m: Bytes, e': Bytes, m': Bytes, t: Digest)
    requires Plain(c) && DeriveKek(c, e, m, t).Some?
    requires DeriveKek(c, e, m, t) == DeriveKek(c, e', m', t)
    ensures e == e' && m == m'
  {
    var salt := Some("UPCE-PFCE-HYBRID-SALT-V1");
    KekBindsSecrets(c, e, m, t, e', m', t);
    var ikm, ikm' := Packed(e, m), Packed(e', m');
    assert ConcatenatesAt(c, salt, "", [], ikm) && ConcatenatesAt(c, salt, "", [], ikm');
    assert [] + ikm == ikm && [] + ikm' == ikm';
    assert ConcatenatesAt(c, None, "UPCE-PFCE/KEK", t, ikm) && ConcatenatesAt(c, None, "UPCE-PFCE/KEK", t, ikm');
    if ikm != ikm' {
      PrefixApart(t, ikm, ikm');
    }
  }

  /** A digest under which all transcripts are alike. */
  function Blind(): Hash {
    (b: seq<byte>) => Zeros(32)
  }

  /** A run that shows it, for any participants: lawful schemes, and two transfers that differ in their coins
      alone, whose transcripts have one digest; their encapsulated secrets differ, and so do their keys. */
  lemma SecretRun(masterKey: Bytes, senderId: string, receiverId: string, transferId: string)
    returns (c: Crypto, r: Randomness, r': Randomness)
    ensures c.Lawful() && c.ecValid([]) && r' == r.(coins := r'.coins)
    ensures forall x, y :: Transcript(c.lib, x) == Transcript(c.lib, y)
    ensures var (setup, setup') :=
              (Initialize(c, masterKey, [], senderId, receiverId, transferId, Some(c.ecPublic([])), r),
               Initialize(c, masterKey, [], senderId, receiverId, transferId, Some(c.ecPublic([])), r'));
            setup.kek.Some? && setup'.kek.Some? && setup.kek != setup'.kek
  {
    var lib := Library(Blind(), Json.DumpsBytes);
    JsonLawful(lib.sha);
    c := LawsHoldOfSomething(lib);
    PlainEmptyKeys(c);
    r := FirstKey(receiverId);
    r' := r.(coins := [7]);
    CoinsChangeKek(c, masterKey, senderId, receiverId, transferId);
  }

  lemma CoinsChangeKek(c: Crypto, masterKey: Bytes, senderId: string, receiverId: string, transferId: string)
    requires c.Lawful() && EmptyKeys(c) && Plain(c) && c.kemEncapsulate([1], [7]).1 == [7]
    requires forall x, y :: Transcript(c.lib, x) == Transcript(c.lib, y)
    ensures var r := FirstKey(receiverId);
            var (setup, setup') :=
              (Initialize(c, masterKey, [], senderId, receiverId, transferId, Some([]), r),
               Initialize(c, masterKey, [], senderId, receiverId, transferId, Some([]), r.(coins := [7])));
            setup.kek.Some? && setup'.kek.Some? && setup.kek != setup'.kek
  {
    var r := FirstKey(receiverId);
    var registry := RotatedRegistry(c, masterKey, receiverId);
    var active := GetActive(c, registry, receiverId).value;
    var r' := r.(coins := [7]);
    EstablishSucceeds(c, registry, active, senderId, receiverId, transferId, [], r);
    EstablishSucceeds(c, registry, active, senderId, receiverId, transferId, [], r');
    var t := Transcript(c.lib, UploadInputs(c, active, senderId, receiverId, transferId, [], r));
    var t' := Transcript(c.lib, UploadInputs(c, active, senderId, receiverId, transferId, [], r'));
    assert Establish(c, registry, active, senderId, receiverId, transferId, [], r).kek == DeriveKek(c, [], [], t);
    assert Establish(c, registry, active, senderId, receiverId, transferId, [], r').kek == DeriveKek(c, [], [7], t');
    if DeriveKek(c, [], [], t) == DeriveKek(c, [], [7], t) {
      ConcatenatedBinds(c, [], [], [], [7], t);
    }
  }
}
