// What a download of an uploaded package yields: exactly the file when nothing
// was touched, a prefix of it or an error when package entries were replaced or
// removed, and nothing at all the second time a hybrid package is asked for.

module PfceRoundTrip {
  import opened Basics
  import opened Text
  import opened Primitives
  import opened HybridKex
  import opened PfcePackage
  import K = KeyRegistry
  import P = Prekeys

  function Flatten(pieces: seq<Bytes>): Bytes {
    if pieces == [] then [] else Flatten(pieces[..|pieces| - 1]) + pieces[|pieces| - 1]
  }

  lemma {:induction false} FlattenPrefix(pieces: seq<Bytes>, n: nat)
    requires n <= |pieces|
    ensures Flatten(pieces[..n]) <= Flatten(pieces)
  {
    if n < |pieces| {
      var init := pieces[..|pieces| - 1];
      FlattenPrefix(init, n);
      assert init[..n] == pieces[..n];
    } else {
      assert pieces[..n] == pieces;
    }
  }

  /** The fragments and the entries that an upload writes for these pieces. */
  ghost predicate SealedAs(c: Crypto, receiverId: string, kek: Option<Bytes>, prefix: string, pieces: seq<Bytes>,
                           draws: seq<Draw>, fragments: seq<Fragment>, body: map<string, Bytes>)
  {
    && |pieces| == |draws| == |fragments|
    && forall i {:trigger SealedAt(c, receiverId, kek, prefix, pieces[i], draws[i], i, fragments[i], body)}
                {:trigger fragments[i].filename} {:trigger fragments[i].id} ::
        0 <= i < |fragments| ==> SealedAt(c, receiverId, kek, prefix, pieces[i], draws[i], i, fragments[i], body)
  }

  predicate SealedAt(c: Crypto, receiverId: string, kek: Option<Bytes>, prefix: string, piece: Bytes, draw: Draw,
                     i: nat, f: Fragment, body: map<string, Bytes>)
  {
    && f == Seal(c, receiverId, kek, prefix, i, piece, draw)
    && f.filename in body && body[f.filename] == Ciphertext(c, piece, draw)
  }

  // ---- Untouched packages ----

  /** Both wraps of a sealed fragment give back its key. */
  lemma SealUnwraps(c: Crypto, receiverId: string, kek: Option<Bytes>, prefix: string, id: nat, piece: Bytes, d: Draw,
                    used: Option<Bytes>)
    requires c.AeadLaw() && c.RsaLaw() && c.Base64Law() && (used.Some? && kek.Some? ==> used == kek)
    ensures UnwrapKey(c, used, receiverId, Seal(c, receiverId, kek, prefix, id, piece, d)) == Ok(d.key)
  {
    assert c.RsaOpens(receiverId, d.padding, d.key) && c.Base64Opens(c.rsaEncrypt(receiverId, d.padding, d.key));
    if used.Some? && kek.Some? {
      assert c.AeadOpens(Aes256Gcm, used.value, d.wrapNonce, d.key) && c.Base64Opens(d.wrapNonce);
      assert c.Base64Opens(c.aeadEncrypt(Aes256Gcm, used.value, d.wrapNonce, d.key));
    }
  }

  lemma SealDecrypts(c: Crypto, receiverId: string, kek: Option<Bytes>, prefix: string, id: nat, piece: Bytes, d: Draw)
    requires c.AeadLaw() && c.Base64Law()
    ensures Decrypt(c, d.key, Seal(c, receiverId, kek, prefix, id, piece, d), Ciphertext(c, piece, d)) == Ok(piece)
  {
    CipherRoundTrip(d.cipher);
    assert c.Base64Opens(d.nonce) && c.AeadOpens(d.cipher, d.key, d.nonce, piece);
  }

  lemma SealOpens(c: Crypto, receiverId: string, kek: Option<Bytes>, prefix: string, piece: Bytes, d: Draw, i: nat,
                  f: Fragment, body: map<string, Bytes>, used: Option<Bytes>)
    requires c.AeadLaw() && c.RsaLaw() && c.Base64Law() && (used.Some? ==> used == kek)
    requires SealedAt(c, receiverId, kek, prefix, piece, d, i, f, body)
    ensures Open(c, used, receiverId, body, f) == Ok(piece)
  {
    SealUnwraps(c, receiverId, kek, prefix, i, piece, d, used);
    SealDecrypts(c, receiverId, kek, prefix, i, piece, d);
  }

  lemma Split<T>(s: seq<T>, i: nat)
    requires i < |s|
    ensures s[i..][0] == s[i] && s[i..][1..] == s[i + 1..] && s[i..] == [s[i]] + s[i + 1..]
  {}

  lemma EmitStep(c: Crypto, kek: Option<Bytes>, receiverId: string, body: map<string, Bytes>,
                 fragments: seq<Fragment>, chunk: Bytes)
    requires fragments != [] && Open(c, kek, receiverId, body, fragments[0]) == Ok(chunk)
    ensures var rest := Emit(c, kek, receiverId, body, fragments[1..]);
            Emit(c, kek, receiverId, body, fragments) == Emission([chunk] + rest.chunks, rest.error)
  {}

  lemma {:induction false} EmitsAll(c: Crypto, receiverId: string, kek: Option<Bytes>, prefix: string,
                                    pieces: seq<Bytes>, draws: seq<Draw>, fragments: seq<Fragment>,
                                    body: map<string, Bytes>, used: Option<Bytes>, i: nat)
    requires c.AeadLaw() && c.RsaLaw() && c.Base64Law() && (used.Some? ==> used == kek)
    requires SealedAs(c, receiverId, kek, prefix, pieces, draws, fragments, body) && i <= |pieces|
    ensures Emit(c, used, receiverId, body, fragments[i..]) == Emission(pieces[i..], None)
    decreases |pieces| - i
  {
    if i < |pieces| {
      assert SealedAt(c, receiverId, kek, prefix, pieces[i], draws[i], i, fragments[i], body);
      EmitsAll(c, receiverId, kek, prefix, pieces, draws, fragments, body, used, i + 1);
      SealOpens(c, receiverId, kek, prefix, pieces[i], draws[i], i, fragments[i], body, used);
      Split(fragments, i);
      Split(pieces, i);
      EmitStep(c, used, receiverId, body, fragments[i..], pieces[i]);
    }
  }

  /** A set-up either yields a key and hybrid metadata, or neither. */
  lemma SetupConsistent(c: Crypto, masterKey: Bytes, rows: K.Table, senderId: string, receiverId: string,
                        transferId: string, prekeyPublic: Option<Bytes>, r: Randomness)
    ensures var setup := Initialize(c, masterKey, rows, senderId, receiverId, transferId, prekeyPublic, r);
            && (setup.kek.Some? <==> setup.meta.enabled)
            && (setup.kek.Some? ==> prekeyPublic.Some?)
  {}

  function PublicHalf(c: Crypto, prekey: Option<Bytes>): Option<Bytes> {
    if prekey.Some? then Some(c.ecPublic(prekey.value)) else None
  }

  /** The round trip. A package made of these pieces, its manifest entries in any
      order, is delivered as exactly these pieces: with the transfer key when the
      transfer is hybrid and the engine is supplied, and through RSA otherwise. For a
      hybrid transfer the receiver's active public key must still be that of the upload. */
  lemma RoundTrip(c: Crypto, masterKey: Bytes, rows: K.Table, senderId: string, receiverId: string, transferId: string,
                  prekey: Option<Bytes>, r: Randomness, gs: seq<K.Generation>, prefix: string, pieces: seq<Bytes>,
                  draws: seq<Draw>, fragments: seq<Fragment>, pkg: Package, engine: bool)
    requires c.Lawful() && K.Valid(c, masterKey, rows) && c.ecValid(r.ephemeral)
        && (prekey.Some? ==> c.ecValid(prekey.value))
    requires var setup := Initialize(c, masterKey, rows, senderId, receiverId, transferId, PublicHalf(c, prekey), r);
             && pkg.manifest.senderId == senderId && pkg.manifest.hybrid == setup.meta
             && SealedAs(c, receiverId, setup.kek, prefix, pieces, draws, fragments, pkg.body)
             && (setup.kek.Some? && engine ==>
                   SameReceiverKey(c, setup.registry, K.Rotations(c, masterKey, setup.registry, gs), receiverId))
    requires multiset(pkg.manifest.fragments) == multiset(fragments)
    ensures var setup := Initialize(c, masterKey, rows, senderId, receiverId, transferId, PublicHalf(c, prekey), r);
            Deliver(c, masterKey, K.Rotations(c, masterKey, setup.registry, gs), pkg, receiverId, transferId, engine,
                    prekey)
            == Emission(pieces, None)
  {
    var setup := Initialize(c, masterKey, rows, senderId, receiverId, transferId, PublicHalf(c, prekey), r);
    SetupConsistent(c, masterKey, rows, senderId, receiverId, transferId, PublicHalf(c, prekey), r);
    SealedNumbered(c, receiverId, setup.kek, prefix, pieces, draws, fragments, pkg.body);
    SortRestores(pkg.manifest.fragments, fragments);
    assert fragments[0..] == fragments && pieces[0..] == pieces;
    EmitsAll(c, receiverId, setup.kek, prefix, pieces, draws, fragments, pkg.body, None, 0);
    if setup.kek.Some? && engine {
      KekAgreementExactly(c, masterKey, rows, senderId, receiverId, transferId, prekey.value, r, gs);
      EmitsAll(c, receiverId, setup.kek, prefix, pieces, draws, fragments, pkg.body, setup.kek, 0);
    }
  }

  // ---- After the receiver's key was rotated ----

  /** What one key wrapped opens under another. */
  predicate OpensUnderOther(c: Crypto, kek: Bytes, other: Bytes, d: Draw) {
    other != kek && c.aeadDecrypt(Aes256Gcm, other, d.wrapNonce,
                                  c.aeadEncrypt(Aes256Gcm, kek, d.wrapNonce, d.key)).Some?
  }

  /** A fragment with a proper wrap, unwrapped with another transfer key. */
  lemma OtherKeyFails(c: Crypto, kek: Bytes, other: Bytes, receiverId: string, prefix: string, piece: Bytes, d: Draw,
                      i: nat, f: Fragment, body: map<string, Bytes>)
    requires c.Base64Law() && SealedAt(c, receiverId, Some(kek), prefix, piece, d, i, f, body) && other != kek
    requires d.wrapNonce != [] && c.aeadEncrypt(Aes256Gcm, kek, d.wrapNonce, d.key) != []
    ensures Open(c, Some(other), receiverId, body, f) == Err(HybridUnwrapFailed(i)) <==>
        !OpensUnderOther(c, kek, other, d)
  {
    assert c.Base64Opens(d.wrapNonce) && c.Base64Opens(c.aeadEncrypt(Aes256Gcm, kek, d.wrapNonce, d.key));
  }

  /** A hybrid download after the receiver's active public key changed: recovery expands what the upload
      extracted under the transcript with the new key. That is the upload's key exactly if the two transcripts,
      or the two expansions, collide, and then the file is delivered. Otherwise nothing is emitted and the
      first fragment's unwrap fails, exactly if what the upload wrapped does not open under the other key. */
  lemma RotatedDownload(c: Crypto, masterKey: Bytes, rows: K.Table, senderId: string, receiverId: string,
                        transferId: string, prekey: Bytes, r: Randomness, gs: seq<K.Generation>, prefix: string,
                        pieces: seq<Bytes>, draws: seq<Draw>, fragments: seq<Fragment>, pkg: Package)
    requires c.Lawful() && K.Valid(c, masterKey, rows) && c.ecValid(r.ephemeral) && c.ecValid(prekey) && pieces != []
    requires var setup := Initialize(c, masterKey, rows, senderId, receiverId, transferId, Some(c.ecPublic(prekey)), r);
             && setup.kek.Some? && pkg.manifest.senderId == senderId && pkg.manifest.hybrid == setup.meta
             && SealedAs(c, receiverId, setup.kek, prefix, pieces, draws, fragments, pkg.body)
             && !SameReceiverKey(c, setup.registry, K.Rotations(c, masterKey, setup.registry, gs), receiverId)
             && draws[0].wrapNonce != []
             && c.aeadEncrypt(Aes256Gcm, setup.kek.value, draws[0].wrapNonce, draws[0].key) != []
    requires multiset(pkg.manifest.fragments) == multiset(fragments)
    ensures var setup := Initialize(c, masterKey, rows, senderId, receiverId, transferId, Some(c.ecPublic(prekey)), r);
            var rows' := K.Rotations(c, masterKey, setup.registry, gs);
            var (sent, now) := (K.GetActive(c, setup.registry, receiverId), K.GetActive(c, rows', receiverId));
            && sent.Ok? && now.Ok?
            && var x := UploadInputs(c, sent.value, senderId, receiverId, transferId, c.ecPublic(prekey), r);
               var y := x.(kemPublic := now.value.publicKey);
               var prk := UploadPrk(c, sent.value, c.ecPublic(prekey), r);
               var other := ExpandKek(c, Transcript(c.lib, y), prk);
               && Recover(c, masterKey, rows', senderId, receiverId, transferId, setup.meta, Some(prekey)) ==
                  Ok(Some(other))
               && (other == setup.kek.value <==>
                   TranscriptCollision(c.lib, x, y)
                   || KdfCollision(c, Transcript(c.lib, x), prk, Transcript(c.lib, y), prk))
               && var e := Deliver(c, masterKey, rows', pkg, receiverId, transferId, true, Some(prekey));
                  if other == setup.kek.value then e == Emission(pieces, None)
                  else e == Emission([], Some(HybridUnwrapFailed(0)))
                       <==> !OpensUnderOther(c, setup.kek.value, other, draws[0])
  {
    var setup := Initialize(c, masterKey, rows, senderId, receiverId, transferId, Some(c.ecPublic(prekey)), r);
    KeysAfterRotations(c, masterKey, rows, senderId, receiverId, transferId, prekey, r, gs);
    KekAgreementExactly(c, masterKey, rows, senderId, receiverId, transferId, prekey, r, gs);
    var rows' := K.Rotations(c, masterKey, setup.registry, gs);
    var other := Recover(c, masterKey, rows', senderId, receiverId, transferId, setup.meta, Some(prekey)).value.value;
    if other != setup.kek.value {
      OtherKeyDownload(c, masterKey, rows', receiverId, transferId, prekey, prefix, pieces, draws, fragments, pkg,
                       setup.kek.value, other);
    } else {
      SealedNumbered(c, receiverId, setup.kek, prefix, pieces, draws, fragments, pkg.body);
      SortRestores(pkg.manifest.fragments, fragments);
      EmitsAll(c, receiverId, setup.kek, prefix, pieces, draws, fragments, pkg.body, setup.kek, 0);
      assert fragments[0..] == fragments && pieces[0..] == pieces;
    }
  }

  /** A download whose recovery yields another key than the fragments were sealed with. */
  lemma OtherKeyDownload(c: Crypto, masterKey: Bytes, rows: K.Table, receiverId: string, transferId: string,
                         prekey: Bytes, prefix: string, pieces: seq<Bytes>, draws: seq<Draw>, fragments: seq<Fragment>,
                         pkg: Package, kek: Bytes, other: Bytes)
    requires c.Lawful() && pieces != [] && other != kek && pkg.manifest.hybrid.enabled
    requires SealedAs(c, receiverId, Some(kek), prefix, pieces, draws, fragments, pkg.body)
    requires Recover(c, masterKey, rows, pkg.manifest.senderId, receiverId, transferId, pkg.manifest.hybrid,
                     Some(prekey)) == Ok(Some(other))
    requires draws[0].wrapNonce != [] && c.aeadEncrypt(Aes256Gcm, kek, draws[0].wrapNonce, draws[0].key) != []
    requires multiset(pkg.manifest.fragments) == multiset(fragments)
    ensures Deliver(c, masterKey, rows, pkg, receiverId, transferId, true, Some(prekey)) ==
                Emission([], Some(HybridUnwrapFailed(0)))
       <==> !OpensUnderOther(c, kek, other, draws[0])
  {
    SealedNumbered(c, receiverId, Some(kek), prefix, pieces, draws, fragments, pkg.body);
    SortRestores(pkg.manifest.fragments, fragments);
    assert SealedAt(c, receiverId, Some(kek), prefix, pieces[0], draws[0], 0, fragments[0], pkg.body);
    OtherKeyFails(c, kek, other, receiverId, prefix, pieces[0], draws[0], 0, fragments[0], pkg.body);
  }

  /** A download that does fail, for any participants, master key, piece and random choices: the package was
      sealed by an upload, and the receiver's key was rotated before the download. */
  lemma FailedDownload(masterKey: Bytes, senderId: string, receiverId: string, transferId: string, prefix: string,
                       piece: Bytes, draw: Draw)
    returns (c: Crypto, setup: Setup, rows: K.Table, recovered: Bytes, pkg: Package)
    requires draw.wrapNonce != []
    ensures c.Lawful() && RunOf(c, masterKey, senderId, receiverId, transferId, setup, rows, recovered)
    ensures pkg.manifest.senderId == senderId && pkg.manifest.hybrid == setup.meta
    ensures SealedAs(c, receiverId, setup.kek, prefix, [piece], [draw], pkg.manifest.fragments, pkg.body)
    ensures Deliver(c, masterKey, rows, pkg, receiverId, transferId, true, Some([])) ==
        Emission([], Some(HybridUnwrapFailed(0)))
  {
    c, setup, rows, recovered := RotationRun(masterKey, senderId, receiverId, transferId);
    var kek := setup.kek.value;
    var f := Seal(c, receiverId, Some(kek), prefix, 0, piece, draw);
    pkg := Package(Manifest(senderId, receiverId, setup.meta, [f], None),
                   map[f.filename := Ciphertext(c, piece, draw)]);
    SetupConsistent(c, masterKey, [], senderId, receiverId, transferId, Some([]), FirstKey(receiverId));
    NotOpened(c, kek, recovered, draw);
    OtherKeyDownload(c, masterKey, rows, receiverId, transferId, [], prefix, [piece], [draw], [f], pkg, kek, recovered);
  }

  lemma NotOpened(c: Crypto, kek: Bytes, other: Bytes, d: Draw)
    requires Plain(c) && |other| == |kek| && other != kek && kek != []
    ensures !OpensUnderOther(c, kek, other, d) && c.aeadEncrypt(Aes256Gcm, kek, d.wrapNonce, d.key) != []
  {
    assert PlainAt(c, kek, other, d.wrapNonce, d.key);
  }

  lemma SealedNumbered(c: Crypto, receiverId: string, kek: Option<Bytes>, prefix: string, pieces: seq<Bytes>,
                       draws: seq<Draw>, fragments: seq<Fragment>, body: map<string, Bytes>)
    requires SealedAs(c, receiverId, kek, prefix, pieces, draws, fragments, body)
    ensures Numbered(fragments)
  {}

  lemma SealedPrefix(c: Crypto, receiverId: string, kek: Option<Bytes>, prefix: string, pieces: seq<Bytes>,
                     draws: seq<Draw>, fragments: seq<Fragment>, body: map<string, Bytes>)
    requires SealedAs(c, receiverId, kek, prefix, pieces, draws, fragments, body) && pieces != []
    ensures var n := |pieces| - 1;
            SealedAs(c, receiverId, kek, prefix, pieces[..n], draws[..n], fragments[..n], body)
  {
    var n := |pieces| - 1;
    forall i | 0 <= i < n
      ensures SealedAt(c, receiverId, kek, prefix, pieces[..n][i], draws[..n][i], i, fragments[..n][i], body)
    {
      assert SealedAt(c, receiverId, kek, prefix, pieces[i], draws[i], i, fragments[i], body);
    }
  }

  /** Without a declared size the receiver takes the size of the file as the signed one. */
  lemma {:induction false} SealedSize(c: Crypto, receiverId: string, kek: Option<Bytes>, prefix: string,
                                      pieces: seq<Bytes>, draws: seq<Draw>, fragments: seq<Fragment>,
                                      body: map<string, Bytes>)
    requires SealedAs(c, receiverId, kek, prefix, pieces, draws, fragments, body)
    ensures TotalSize(fragments) == |Flatten(pieces)|
  {
    if pieces != [] {
      var n := |pieces| - 1;
      SealedPrefix(c, receiverId, kek, prefix, pieces, draws, fragments, body);
      SealedSize(c, receiverId, kek, prefix, pieces[..n], draws[..n], fragments[..n], body);
      assert SealedAt(c, receiverId, kek, prefix, pieces[n], draws[n], n, fragments[n], body);
    }
  }

  // ---- Tampered packages ----

  /** The manifest carries the plaintext hashes of these pieces. */
  predicate Describes(c: Crypto, fragments: seq<Fragment>, pieces: seq<Bytes>) {
    |fragments| == |pieces| && forall i :: 0 <= i < |pieces| ==> fragments[i].hash == c.lib.HexDigest(pieces[i])
  }

  /** Some emitted chunk is not the piece it stands for but has its digest. */
  ghost predicate ForgedChunk(c: Crypto, chunks: seq<Bytes>, pieces: seq<Bytes>) {
    exists i :: 0 <= i < |chunks| && i < |pieces| && c.lib.Collide(chunks[i], pieces[i])
  }

  lemma OpenedMatches(c: Crypto, kek: Option<Bytes>, receiverId: string, body: map<string, Bytes>, f: Fragment)
    ensures var r := Open(c, kek, receiverId, body, f); r.Ok? ==> c.lib.HexDigest(r.value) == f.hash
  {}

  /** The chunks are the first pieces, and all of them exactly without an error. */
  ghost predicate PrefixOf(e: Emission, pieces: seq<Bytes>) {
    e.chunks <= pieces && (e.error == None <==> e.chunks == pieces)
  }

  lemma PrefixStep(chunk: Bytes, rest: Emission, pieces: seq<Bytes>)
    requires pieces != [] && chunk == pieces[0] && PrefixOf(rest, pieces[1..])
    ensures PrefixOf(Emission([chunk] + rest.chunks, rest.error), pieces)
  {
    assert pieces == [pieces[0]] + pieces[1..];
    var chunks := [chunk] + rest.chunks;
    assert chunks == pieces[..|chunks|];
    if chunks == pieces {
      assert rest.chunks == chunks[1..] == pieces[1..];
    }
  }

  lemma ForgedStep(c: Crypto, chunk: Bytes, chunks: seq<Bytes>, pieces: seq<Bytes>)
    requires pieces != [] && (c.lib.Collide(chunk, pieces[0]) || ForgedChunk(c, chunks, pieces[1..]))
    ensures ForgedChunk(c, [chunk] + chunks, pieces)
  {
    var all := [chunk] + chunks;
    if c.lib.Collide(chunk, pieces[0]) {
      assert c.lib.Collide(all[0], pieces[0]);
    } else {
      var i :| 0 <= i < |chunks| && i < |pieces[1..]| && c.lib.Collide(chunks[i], pieces[1..][i]);
      assert c.lib.Collide(all[i + 1], pieces[i + 1]);
    }
  }

  lemma {:induction false} EmitsPrefix(c: Crypto, kek: Option<Bytes>, receiverId: string, body: map<string, Bytes>,
                                       fragments: seq<Fragment>, pieces: seq<Bytes>)
    requires Describes(c, fragments, pieces)
    ensures var e := Emit(c, kek, receiverId, body, fragments);
            ForgedChunk(c, e.chunks, pieces) || PrefixOf(e, pieces)
    decreases |pieces|
  {
    if pieces != [] {
      OpenedMatches(c, kek, receiverId, body, fragments[0]);
      var first := Open(c, kek, receiverId, body, fragments[0]);
      if first.Ok? {
        var rest := Emit(c, kek, receiverId, body, fragments[1..]);
        EmitStep(c, kek, receiverId, body, fragments, first.value);
        EmitsPrefix(c, kek, receiverId, body, fragments[1..], pieces[1..]);
        c.lib.SameHexDigest(first.value, pieces[0]);
        if first.value == pieces[0] && PrefixOf(rest, pieces[1..]) {
          PrefixStep(first.value, rest, pieces);
        } else {
          ForgedStep(c, first.value, rest.chunks, pieces);
        }
      }
    }
  }

  /** Prefix or error. With the manifest unchanged, whatever stands in the body and
      whichever keys are used: the emitted bytes are a prefix of the file, all of it
      exactly when no error is raised, or an emitted chunk collides with its piece. */
  lemma PrefixOrError(c: Crypto, kek: Option<Bytes>, receiverId: string, body: map<string, Bytes>,
                      fragments: seq<Fragment>, pieces: seq<Bytes>)
    requires Describes(c, fragments, pieces)
    ensures var e := Emit(c, kek, receiverId, body, fragments);
            || ForgedChunk(c, e.chunks, pieces)
            || (PrefixOf(e, pieces) && Flatten(e.chunks) <= Flatten(pieces))
  {
    EmitsPrefix(c, kek, receiverId, body, fragments, pieces);
    var chunks := Emit(c, kek, receiverId, body, fragments).chunks;
    if chunks <= pieces {
      assert chunks == pieces[..|chunks|];
      FlattenPrefix(pieces, |chunks|);
    }
  }

  /** The same for a whole download, the manifest's entries in any order; when the transfer key cannot
      be recovered, nothing comes out at all. */
  lemma DeliversPrefix(c: Crypto, masterKey: Bytes, registry: K.Table, pkg: Package, receiverId: string,
                       transferId: string, engine: bool, prekey: Option<Bytes>, fragments: seq<Fragment>,
                       pieces: seq<Bytes>)
    requires Numbered(fragments) && Describes(c, fragments, pieces)
        && multiset(pkg.manifest.fragments) == multiset(fragments)
    ensures var e := Deliver(c, masterKey, registry, pkg, receiverId, transferId, engine, prekey);
            || (e.chunks == [] && e.error.Some? && e.error.value.KeyExchange?)
            || ForgedChunk(c, e.chunks, pieces)
            || (PrefixOf(e, pieces) && Flatten(e.chunks) <= Flatten(pieces))
  {
    SortRestores(pkg.manifest.fragments, fragments);
    var m := pkg.manifest;
    if m.hybrid.enabled && engine {
      match Recover(c, masterKey, registry, m.senderId, receiverId, transferId, m.hybrid, prekey)
      case Err(_) =>
      case Ok(kek) => PrefixOrError(c, kek, receiverId, pkg.body, fragments, pieces);
    } else {
      PrefixOrError(c, None, receiverId, pkg.body, fragments, pieces);
    }
  }

  /** Removing or replacing an entry of an uploaded package is noticed no later than
      that entry: the download raises earlier, or there with the error that says so, or
      the replacement has the digest of the original entry. */
  lemma {:induction false} TamperingStops(c: Crypto, kek: Option<Bytes>, used: Option<Bytes>, receiverId: string,
                                          prefix: string, pieces: seq<Bytes>, draws: seq<Draw>,
                                          fragments: seq<Fragment>, body: map<string, Bytes>,
                                          tampered: map<string, Bytes>, i: nat, from: nat)
    requires SealedAs(c, receiverId, kek, prefix, pieces, draws, fragments, body) && from <= i < |fragments|
    requires fragments[i].filename in tampered ==> tampered[fragments[i].filename] != body[fragments[i].filename]
    ensures var e := Emit(c, used, receiverId, tampered, fragments[from..]);
            || (e.error.Some? && |e.chunks| < i - from)
            || (|e.chunks| == i - from
                && e.error == Some(if fragments[i].filename in tampered then CiphertextMismatch(i)
                                   else MissingFragment(i)))
            || (fragments[i].filename in tampered
                && c.lib.Collide(tampered[fragments[i].filename], body[fragments[i].filename]))
    decreases i - from
  {
    assert fragments[from..][0] == fragments[from] && fragments[from..][1..] == fragments[from + 1..];
    assert SealedAt(c, receiverId, kek, prefix, pieces[i], draws[i], i, fragments[i], body);
    if from == i {
      if fragments[i].filename in tampered && tampered[fragments[i].filename] != body[fragments[i].filename] {
        SealedDigest(c, receiverId, kek, prefix, pieces[i], draws[i], i, tampered[fragments[i].filename]);
      }
    } else {
      TamperingStops(c, kek, used, receiverId, prefix, pieces, draws, fragments, body, tampered, i, from + 1);
    }
  }

  lemma SealedDigest(c: Crypto, receiverId: string, kek: Option<Bytes>, prefix: string, piece: Bytes, d: Draw, i: nat,
                     other: Bytes)
    requires other != Ciphertext(c, piece, d)
    ensures c.lib.Collide(other, Ciphertext(c, piece, d))
            || Seal(c, receiverId, kek, prefix, i, piece, d).ciphertextSha256 != Some(c.lib.HexDigest(other))
  {
    if c.lib.HexDigest(other) == c.lib.HexDigest(Ciphertext(c, piece, d)) {
      c.lib.SameHexDigest(other, Ciphertext(c, piece, d));
    }
  }

  // ---- One shot ----

  /** Package names are unique: at most one claim of the run is for this transfer. */
  ghost predicate UniqueTransfer(s: P.State, transfer: string) {
    forall i, j ::
      (0 <= i < |s.claims| && 0 <= j < |s.claims| && s.claims[i].transfer == transfer
       && s.claims[j].transfer == transfer) ==> i == j
  }

  /** A private key of this transfer was handed out. */
  ghost predicate HandedOut(s: P.State, transfer: string) {
    exists i, k :: 0 <= i < |s.claims| && 0 <= k < |s.released| && ReleasedBy(s, i, k, transfer)
  }

  predicate ReleasedBy(s: P.State, i: nat, k: nat, transfer: string)
    requires i < |s.claims| && k < |s.released|
  {
    s.claims[i].transfer == transfer && s.released[k].id == s.claims[i].id
  }

  /** The key that was claimed for this transfer is returned by two retrievals. */
  ghost predicate TwiceFor(s: P.State, transfer: string) {
    exists i, j, k, l :: 0 <= i < |s.claims| && 0 <= j < |s.claims| && 0 <= k < l < |s.released|
                         && ReleasedBy(s, i, k, transfer) && ReleasedBy(s, j, l, transfer)
  }

  /** Two retrievals of a key claimed for this transfer overlap. */
  ghost predicate OverlapFor(actions: seq<P.Action>, transfer: string) {
    exists i :: 0 <= i < |P.Run(actions).claims| && P.Run(actions).claims[i].transfer == transfer
                && P.Overlap(actions, P.Run(actions).claims[i].id)
  }

  /** The prekey of a uniquely named transfer is handed out to two downloads exactly when both
      query it before either deletes it. */
  lemma HandedOutOnce(actions: seq<P.Action>, transfer: string)
    requires UniqueTransfer(P.Run(actions), transfer)
    ensures TwiceFor(P.Run(actions), transfer) <==> OverlapFor(actions, transfer)
  {
    var s := P.Run(actions);
    if TwiceFor(s, transfer) {
      var i, j, k, l :| 0 <= i < |s.claims| && 0 <= j < |s.claims| && 0 <= k < l < |s.released|
                        && ReleasedBy(s, i, k, transfer) && ReleasedBy(s, j, l, transfer);
      assert P.HandedOutTwice(s, s.claims[i].id);
      P.TwiceExactly(actions, s.claims[i].id);
    }
    if OverlapFor(actions, transfer) {
      var i :| 0 <= i < |s.claims| && s.claims[i].transfer == transfer && P.Overlap(actions, s.claims[i].id);
      P.TwiceExactly(actions, s.claims[i].id);
      var k, l :| 0 <= k < l < |s.released| && s.released[k].id == s.claims[i].id && s.released[l].id == s.claims[i].id;
      assert ReleasedBy(s, i, k, transfer) && ReleasedBy(s, i, l, transfer);
    }
  }

  /** Once it was handed out, no row answers the retrieving query for the transfer. */
  lemma NoRowLeft(actions: seq<P.Action>, transfer: string)
    requires UniqueTransfer(P.Run(actions), transfer) && HandedOut(P.Run(actions), transfer)
    ensures forall id <- P.Run(actions).rows :: P.Run(actions).rows[id].transfer != Some(transfer)
  {
    var s := P.Run(actions);
    P.Reachable(actions);
    var i, k :| 0 <= i < |s.claims| && 0 <= k < |s.released| && ReleasedBy(s, i, k, transfer);
    assert P.ReleaseOk(s, k);
    forall id | id in s.rows ensures s.rows[id].transfer != Some(transfer) {
      assert s.rows[id].consumed ==> P.IsClaimed(s, id);
    }
  }

  /** The answer of a retrieval whose query runs in this state of the pool. */
  ghost predicate Retrieves(s: P.State, receiverId: string, transfer: string, answer: Option<Bytes>) {
    match answer
    case Some(key) => exists id <- s.rows ::
        P.ClaimedFor(s.rows[id], receiverId, transfer) && s.rows[id].privatePem == key
    case None => forall id <- s.rows :: !P.ClaimedFor(s.rows[id], receiverId, transfer)
  }

  /** One-shot hybrid download: once the prekey of a package was handed out, every
      download with a crypto engine that queries it later, at any point of any run,
      fails before the first byte; it does not go back to RSA. */
  lemma OneShot(actions: seq<P.Action>, c: Crypto, masterKey: Bytes, registry: K.Table, pkg: Package,
                receiverId: string, transferId: string, answer: Option<Bytes>)
    requires pkg.manifest.hybrid.enabled && pkg.manifest.hybrid.mode == "HYBRID"
    requires UniqueTransfer(P.Run(actions), transferId) && HandedOut(P.Run(actions), transferId)
    requires Retrieves(P.Run(actions), receiverId, transferId, answer)
    ensures Deliver(c, masterKey, registry, pkg, receiverId, transferId, true, answer) ==
        Emission([], Some(KeyExchange(MissingPrekey)))
  {
    NoRowLeft(actions, transferId);
  }

  /** Without an engine, or without hybrid metadata, nothing is one-shot: the package is delivered through
      RSA to every download, whatever became of its prekey. */
  lemma NoEngineNoLimit(c: Crypto, masterKey: Bytes, registry: K.Table, kek: Option<Bytes>, receiverId: string,
                        transferId: string, prefix: string, pieces: seq<Bytes>, draws: seq<Draw>,
                        fragments: seq<Fragment>, pkg: Package, engine: bool, answer: Option<Bytes>)
    requires c.Lawful() && SealedAs(c, receiverId, kek, prefix, pieces, draws, fragments, pkg.body)
    requires multiset(pkg.manifest.fragments) == multiset(fragments)
    requires engine ==> !pkg.manifest.hybrid.enabled || pkg.manifest.hybrid.mode != "HYBRID"
    ensures Deliver(c, masterKey, registry, pkg, receiverId, transferId, engine, answer) == Emission(pieces, None)
  {
    SealedNumbered(c, receiverId, kek, prefix, pieces, draws, fragments, pkg.body);
    SortRestores(pkg.manifest.fragments, fragments);
    assert fragments[0..] == fragments && pieces[0..] == pieces;
    EmitsAll(c, receiverId, kek, prefix, pieces, draws, fragments, pkg.body, None, 0);
  }

  /** Handing out is for good: later actions cannot undo it. */
  lemma {:induction false} HandedOutForever(actions: seq<P.Action>, n: nat, transfer: string)
    requires n <= |actions| && HandedOut(P.Run(actions[..n]), transfer)
    ensures HandedOut(P.Run(actions), transfer)
  {
    if n < |actions| {
      var m := |actions| - 1;
      assert actions[..m][..n] == actions[..n];
      HandedOutForever(actions[..m], n, transfer);
      var s, s' := P.Run(actions[..m]), P.Run(actions);
      var i, k :| 0 <= i < |s.claims| && 0 <= k < |s.released| && ReleasedBy(s, i, k, transfer);
      P.ReleasedGrow(s, actions[m]);
      assert s.claims <= s'.claims;
      assert ReleasedBy(s', i, k, transfer);
    } else {
      assert actions[..n] == actions;
    }
  }
}
