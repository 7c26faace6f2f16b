// The upload and download procedures themselves: the nested read loops that cut a
// stream, the prekey claim, sealing and packaging, and the download generator.

module PfceEngine {
  import opened Basics
  import opened Text
  import opened Primitives
  import opened HybridKex
  import opened PfcePackage
  import opened PfceRoundTrip
  import K = KeyRegistry
  import P = Prekeys

  // ---- Policy ----

  datatype Policy = Policy(minChunk: int, maxChunk: int, ciphers: seq<Cipher>)

  const KB := 1024
  const MB := 1024 * 1024

  /** What select_crypto_policy looks at, lower-cased. */
  datatype Context = Context(level: string, classification: string, malware: real)

  predicate HighRisk(ctx: Context) {
    ctx.level in {"high", "critical"} || ctx.malware >= 0.90
  }

  function SelectPolicy(ctx: Context): (p: Policy)
    ensures 1 <= p.minChunk <= p.maxChunk <= 15 * MB
  {
    if HighRisk(ctx) || ctx.classification in {"sensitive", "confidential", "restricted", "secret"} then
      Policy(512 * KB, 2 * MB, [ChaCha20Poly1305])
    else if ctx.level == "medium" || ctx.classification in {"internal", "private"} then
      Policy(2 * MB, 5 * MB, [Aes256Gcm, ChaCha20Poly1305])
    else Policy(5 * MB, 15 * MB, [Aes256Gcm, ChaCha20Poly1305])
  }

  /** The chunk range of an upload, with the defaults of one without a policy. */
  function PolicyFor(ctx: Option<Context>): (p: Policy)
    ensures 1 <= p.minChunk <= p.maxChunk <= 15 * MB
  {
    if ctx.Some? then SelectPolicy(ctx.value) else Policy(MB, 5 * MB, [Aes256Gcm, ChaCha20Poly1305])
  }

  predicate Contains(s: string, part: string) {
    exists i :: 0 <= i <= |s| && part <= s[i..]
  }

  /** The ciphers encrypt_file_for_receiver may draw, which looks for words in the classification and
      not at the policy. */
  predicate MayDraw(classification: string, cipher: Cipher) {
    cipher == ChaCha20Poly1305 || !Strict(classification)
  }

  predicate Strict(classification: string) {
    || Contains(classification, "confidential") || Contains(classification, "restricted")
    || Contains(classification, "secret") || Contains(classification, "sensitive")
  }

  /** The ciphers drawn are among the policy's candidates exactly when no risk beyond the classification
      asked for ChaCha20 alone, or the classification asks for it too. */
  lemma CandidatesKept(ctx: Context)
    ensures (forall cipher :: MayDraw(ctx.classification, cipher) ==> cipher in SelectPolicy(ctx).ciphers)
       <==> !(ctx.level in {"high", "critical"} || ctx.malware >= 0.90) || Strict(ctx.classification)
  {
    var name := ctx.classification;
    if name in {"sensitive", "confidential", "restricted", "secret"} {
      assert name[0..] == name && Contains(name, name);
    }
    if HighRisk(ctx) && !Strict(name) {
      assert MayDraw(name, Aes256Gcm) && Aes256Gcm !in SelectPolicy(ctx).ciphers;
    }
  }

  /** The classes of chunk ranges: the strictest for a high risk or a sensitive classification, whatever the
      other says, and the widest only when neither asks for more. */
  lemma PolicyExactly(ctx: Context)
    ensures var p := SelectPolicy(ctx);
            var strict := ctx.level in {"high", "critical"} || ctx.malware >= 0.90
                || ctx.classification in {"sensitive", "confidential", "restricted", "secret"};
            var middle := !strict && (ctx.level == "medium" || ctx.classification in {"internal", "private"});
            && (p.ciphers == [ChaCha20Poly1305] <==> strict)
            && (p.minChunk == 512 * 1024 && p.maxChunk == 2 * 1048576 <==> strict)
            && (p.minChunk == 2 * 1048576 && p.maxChunk == 5 * 1048576 <==> middle)
            && (p.minChunk == 5 * 1048576 && p.maxChunk == 15 * 1048576 <==> !strict && !middle)
  {}

  // ---- The stream ----

  /** A readable stream. A read returns at least one byte until the end, and may
      return fewer than it was asked for. */
  class ByteStream {
    var rest: Bytes

    constructor (data: Bytes)
      ensures rest == data
    {
      rest := data;
    }

    method Read(n: nat) returns (part: Bytes)
      modifies this
      ensures old(rest) == part + rest && |part| <= n
      ensures part == [] <==> n == 0 || old(rest) == []
    {
      if n == 0 || rest == [] {
        return [];
      }
      var k: nat :| 1 <= k <= n && k <= |rest|;
      part, rest := rest[..k], rest[k..];
    }
  }

  /** The inner read loop of process_upload: one fragment of at most chunkSize bytes,
      shorter only at the end of the stream. */
  method CutFragment(stream: ByteStream, chunkSize: int) returns (piece: Bytes)
    modifies stream
    ensures old(stream.rest) == piece + stream.rest
    ensures |piece| <= Max(chunkSize, 0) && (|piece| < chunkSize ==> stream.rest == [])
  {
    piece := [];
    while |piece| < chunkSize
      invariant old(stream.rest) == piece + stream.rest && |piece| <= Max(chunkSize, 0)
      decreases chunkSize - |piece|
    {
      var readAmount := Min(MB, chunkSize - |piece|);
      var part := stream.Read(readAmount);
      if part == [] {
        break;
      }
      piece := piece + part;
    }
  }

  // ---- The receiver's prekeys ----

  /** The user a prekey is claimed for: digit strings go through int(). */
  function PrekeyOwner(receiverId: string): string {
    if receiverId != "" && AllDigits(receiverId) then Str(Int(receiverId)) else receiverId
  }

  /** Upload claims and download retrieves under the same user exactly for receiver
      ids without superfluous leading zeros. */
  lemma OwnerIsReceiver(receiverId: string)
    ensures PrekeyOwner(receiverId) == receiverId <==>
              !(AllDigits(receiverId) && |receiverId| > 1 && receiverId[0] == '0')
  {
    if receiverId != "" && AllDigits(receiverId) {
      StrOfInt(receiverId);
    }
  }

  /** The rows lo..hi are new and available to the user; the others are as before. */
  ghost predicate Added(before: P.Table, after: P.Table, user: string, now: int, lo: nat, hi: nat) {
    && (forall id <- before :: id in after && after[id] == before[id])
    && (forall id :: lo <= id < hi ==>
        id in after && id !in before && P.Available(after[id], user, now) && after[id].transfer == None)
    && (forall id <- after :: id in before || lo <= id < hi)
  }

  /** No prekey is bound to this package name. */
  ghost predicate NoneClaimed(rows: P.Table, transfer: string) {
    forall id <- rows :: rows[id].transfer != Some(transfer)
  }

  /** Some row holds this private key for the user and the transfer. */
  ghost predicate BoundTo(rows: P.Table, user: string, transfer: string, privatePem: Bytes) {
    exists id <- rows :: P.ClaimedFor(rows[id], user, transfer) && rows[id].privatePem == privatePem
  }

  /** Every row bound to the transfer holds this private key, and there is one. */
  ghost predicate OnlyBound(rows: P.Table, transfer: string, privatePem: Bytes) {
    exists id <- rows :: rows[id].privatePem == privatePem && forall other <- rows ::
        rows[other].transfer == Some(transfer) ==> other == id
  }

  /** An answer takes its row with it; no answer means no row matched. */
  ghost predicate Retrieved(before: P.Table, after: P.Table, user: string, transfer: string, answer: Option<Bytes>) {
    match answer
    case None => after == before && forall id <- before :: !P.ClaimedFor(before[id], user, transfer)
    case Some(key) => exists id <- before ::
      P.ClaimedFor(before[id], user, transfer) && before[id].privatePem == key && after == before - {id}
  }

  /** The key bound to a transfer alone is the one its owner retrieves, and then it is gone; under
      any other user nothing is found and nothing changes. */
  lemma RetrievesTheKey(before: P.Table, after: P.Table, owner: string, user: string, transfer: string, prekey: Bytes,
                        answer: Option<Bytes>)
    requires BoundTo(before, owner, transfer, prekey) && OnlyBound(before, transfer, prekey)
    requires Retrieved(before, after, user, transfer, answer)
    ensures if user == owner then answer == Some(prekey) && NoneClaimed(after, transfer)
        else answer == None && after == before
  {}

  /** At most one row changed, and no other row got a transfer. */
  ghost predicate OnlyClaims(before: P.Table, after: P.Table, claimed: Option<nat>) {
    && (forall id <- before :: id in after && (claimed == Some(id) || after[id] == before[id]))
    && (forall id <- after :: id !in before && claimed != Some(id) ==> after[id].transfer == None)
  }

  /** The table and the random generators behind generate_prekeys_for_user. */
  class PrekeyStore {
    const crypto: Crypto
    var rows: P.Table
    var now: int

    /** Every stored pair is a key pair, and every id is below the next fresh one. */
    var nextId: nat

    ghost predicate Valid()
      reads this
    {
      && (forall id <- rows :: id < nextId && crypto.ecValid(rows[id].privatePem)
                               && rows[id].publicPem == crypto.ecPublic(rows[id].privatePem))
      && (forall id <- rows :: rows[id].transfer.Some? ==> rows[id].consumed)
    }

    constructor (crypto: Crypto, now: int)
      ensures Valid() && rows == map[] && this.crypto == crypto && this.now == now
    {
      this.crypto, this.now := crypto, now;
      rows, nextId := map[], 0;
    }

    /** generate_prekeys_for_user: count new rows, nothing else changes. The private
        keys come from the caller's random source. */
    method GeneratePrekeys(user: string, count: nat, random: nat -> Bytes)
      requires Valid() && forall k :: crypto.ecValid(random(k))
      modifies this
      ensures Valid() && now == old(now)
      ensures Added(old(rows), rows, user, now, old(nextId), old(nextId) + count)
    {
      for i := 0 to count
        invariant Valid() && now == old(now) && nextId == old(nextId) + i
        invariant Added(old(rows), rows, user, now, old(nextId), nextId)
      {
        var privatePem := random(i);
        rows := rows[nextId := P.Row(user, crypto.ecPublic(privatePem), privatePem, false, None, now + P.LIFETIME)];
        nextId := nextId + 1;
      }
    }

    /** claim_prekey without competition: the loop ends within two of its three
        attempts with a key that was available, now bound to the transfer. */
    method ClaimPrekey(user: string, transfer: string, random: nat -> Bytes)
      returns (publicPem: Option<Bytes>, ghost claimed: nat)
      requires Valid() && forall k :: crypto.ecValid(random(k))
      modifies this
      ensures Valid() && now == old(now)
      ensures publicPem.Some? && claimed in rows && P.ClaimedFor(rows[claimed], user, transfer)
      ensures publicPem == Some(rows[claimed].publicPem)
      ensures claimed in old(rows) ==> P.Available(old(rows)[claimed], user, now)
      ensures OnlyClaims(old(rows), rows, Some(claimed))
    {
      publicPem, claimed := None, 0;
      var attempt := 0;
      while attempt < P.MAX_ATTEMPTS && publicPem.None?
        invariant Valid() && now == old(now)
        invariant OnlyClaims(old(rows), rows, if publicPem.Some? then Some(claimed) else None)
        invariant publicPem.None? ==> attempt <= 1
        invariant publicPem.None? && attempt == 1 ==> exists id <- rows :: P.Available(rows[id], user, now)
        invariant publicPem.Some? ==>
                    && claimed in rows && P.ClaimedFor(rows[claimed], user, transfer)
                        && publicPem == Some(rows[claimed].publicPem)
                    && (claimed in old(rows) ==> P.Available(old(rows)[claimed], user, now))
        decreases P.MAX_ATTEMPTS - attempt
      {
        var available := set id | id in rows && P.Available(rows[id], user, now);
        if available == {} {
          assert forall id <- rows :: P.Available(rows[id], user, now) ==> id in available;
          ghost var first := nextId;
          GeneratePrekeys(user, P.BATCH, random);
          assert first in rows && P.Available(rows[first], user, now);
        } else {
          var id :| id in available;
          // The conditional update: nobody else ran, so the row is still unconsumed.
          rows := rows[id := P.Consume(rows[id], transfer)];
          publicPem := Some(rows[id].publicPem);
          claimed := id;
        }
        attempt := attempt + 1;
      }
    }

    /** get_and_delete_prekey: some row claimed for the transfer, removed with its
        answer; None and no change when there is none. */
    method GetAndDelete(user: string, transfer: string) returns (privatePem: Option<Bytes>)
      requires Valid()
      modifies this
      ensures Valid() && now == old(now)
      ensures Retrieved(old(rows), rows, user, transfer, privatePem)
    {
      var matching := set id | id in rows && P.ClaimedFor(rows[id], user, transfer);
      if matching == {} {
        assert forall id <- rows :: P.ClaimedFor(rows[id], user, transfer) ==> id in matching;
        return None;
      }
      var id :| id in matching;
      privatePem := Some(rows[id].privatePem);
      rows := rows - {id};
    }
  }

  // ---- The engine ----

  datatype UploadError = TeeUnavailable | EmptyRange | TransferBlocked

  /** What process_upload returns about the file, and the package it wrote. */
  datatype Upload = Upload(pkg: Package, fragmentCount: nat, originalHash: string)

  /** The pieces the stream was cut into and the random choices made for them. */
  datatype Cutting = Cutting(pieces: seq<Bytes>, draws: seq<Draw>)

  /** Pieces other than the last fill a chunk size the policy allows; none is empty. */
  ghost predicate WellCut(pieces: seq<Bytes>, policy: Policy) {
    forall i :: 0 <= i < |pieces| ==>
      1 <= |pieces[i]| <= policy.maxChunk && (i < |pieces| - 1 ==> policy.minChunk <= |pieces[i]|)
  }

  lemma Regroup(a: Bytes, b: Bytes, c: Bytes)
    ensures a + (b + c) == (a + b) + c
  {}

  ghost predicate AllFull(pieces: seq<Bytes>, policy: Policy) {
    forall i :: 0 <= i < |pieces| ==> policy.minChunk <= |pieces[i]|
  }

  /** Every piece fills its chunk size while the stream goes on. */
  ghost predicate CutSoFar(pieces: seq<Bytes>, policy: Policy, rest: Bytes) {
    policy.minChunk >= 1 ==> WellCut(pieces, policy) && (rest != [] ==> AllFull(pieces, policy))
  }

  lemma FlattenAppend(pieces: seq<Bytes>, piece: Bytes)
    ensures Flatten(pieces + [piece]) == Flatten(pieces) + piece
  {
    assert (pieces + [piece])[..|pieces|] == pieces;
  }

  /** The next piece, its chunk size drawn from the policy; the next after the end of the stream is empty. */
  method CutPiece(stream: ByteStream, policy: Policy, ghost pieces: seq<Bytes>, ghost master: Bytes,
                  ghost whole: Bytes)
    returns (piece: Bytes)
    requires policy.minChunk <= policy.maxChunk
    requires CutSoFar(pieces, policy, stream.rest) && whole == master + stream.rest && master == Flatten(pieces)
    modifies stream
    ensures old(stream.rest) == piece + stream.rest && whole == (master + piece) + stream.rest
    ensures policy.minChunk >= 1 && piece == [] ==> stream.rest == []
    ensures piece != [] ==> CutSoFar(pieces + [piece], policy, stream.rest)
    ensures master + piece == Flatten(pieces + [piece])
  {
    var chunkSize: int :| policy.minChunk <= chunkSize <= policy.maxChunk;
    piece := CutFragment(stream, chunkSize);
    Regroup(master, piece, stream.rest);
    FlattenAppend(pieces, piece);
  }

  lemma SealedAppend(c: Crypto, receiverId: string, kek: Option<Bytes>, prefix: string, pieces: seq<Bytes>,
                     draws: seq<Draw>, fragments: seq<Fragment>, files: map<string, Bytes>, piece: Bytes, draw: Draw)
    requires SealedAs(c, receiverId, kek, prefix, pieces, draws, fragments, files)
    ensures var f := Seal(c, receiverId, kek, prefix, |fragments|, piece, draw);
            SealedAs(c, receiverId, kek, prefix, pieces + [piece], draws + [draw], fragments + [f],
                     files[f.filename := Ciphertext(c, piece, draw)])
  {
    var n := |fragments|;
    var f := Seal(c, receiverId, kek, prefix, n, piece, draw);
    var files' := files[f.filename := Ciphertext(c, piece, draw)];
    forall i | 0 <= i <= n
      ensures SealedAt(c, receiverId, kek, prefix, (pieces + [piece])[i], (draws + [draw])[i], i, (fragments + [f])[i],
                       files')
    {
      if i < n {
        assert SealedAt(c, receiverId, kek, prefix, pieces[i], draws[i], i, fragments[i], files);
        if fragments[i].filename == f.filename {
          FragmentNamesDistinct(prefix, i, n);
        }
      }
    }
  }

  /** The set-up of a transfer; not hybrid when the engine or the policy is missing. */
  function SetupFor(c: Crypto, masterKey: Bytes, registry: K.Table, senderId: string, receiverId: string,
                    transferId: string, prekey: Bytes, hybrid: bool, r: Randomness): Setup
  {
    if hybrid then Initialize(c, masterKey, registry, senderId, receiverId, transferId, PublicHalf(c, Some(prekey)), r)
    else Setup(None, DISABLED, registry)
  }

  /** Sealing n fragments ended in a block exactly if the last of them was blocked; no earlier one was. */
  ghost predicate StopsAtBlock(blockedAfter: nat -> bool, n: nat, blocked: bool) {
    && (blocked <==> n > 0 && blockedAfter(n - 1))
    && forall k :: 0 <= k < n - 1 ==> !blockedAfter(k)
  }

  class PFCEEngine {
    const crypto: Crypto
    const masterKey: Bytes
    const trust: Trust
    const prekeys: PrekeyStore
    var registry: K.Table
    /** The encrypted-files directory. */
    var files: map<string, Bytes>

    ghost predicate Valid()
      reads this, prekeys
    {
      crypto.Lawful() && prekeys.crypto == crypto && prekeys.Valid() && K.Valid(crypto, masterKey, registry)
    }

    constructor (crypto: Crypto, masterKey: Bytes, trust: Trust, prekeys: PrekeyStore)
      requires crypto.Lawful() && prekeys.crypto == crypto && prekeys.Valid()
      ensures Valid() && this.crypto == crypto && this.prekeys == prekeys
    {
      this.crypto, this.masterKey, this.trust, this.prekeys := crypto, masterKey, trust, prekeys;
      registry, files := [], map[];
    }

    /** encrypt_file_for_receiver: writes the ciphertext of one fragment and returns its
        manifest entry. */
    method EncryptForReceiver(receiverId: string, kek: Option<Bytes>, prefix: string, id: nat, piece: Bytes, draw: Draw)
      returns (f: Fragment)
      modifies this`files
      ensures f == Seal(crypto, receiverId, kek, prefix, id, piece, draw)
      ensures files == old(files)[f.filename := Ciphertext(crypto, piece, draw)]
    {
      var ciphertext := crypto.aeadEncrypt(draw.cipher, draw.key, draw.nonce, piece);
      var name := Basename(prefix + "_frag_" + Str(id) + ".enc");
      files := files[name := ciphertext];
      var wrapped := crypto.base64(crypto.rsaEncrypt(receiverId, draw.padding, draw.key));
      var hybridKey, hybridNonce: Option<string> := None, None;
      if kek.Some? {
        hybridKey := Some(crypto.base64(crypto.aeadEncrypt(Aes256Gcm, kek.value, draw.wrapNonce, draw.key)));
        hybridNonce := Some(crypto.base64(draw.wrapNonce));
      }
      f := Fragment(id, name, wrapped, crypto.base64(draw.nonce), CipherName(draw.cipher), hybridKey, hybridNonce,
                    crypto.lib.HexDigest(piece), Some(crypto.lib.HexDigest(ciphertext)), |piece|);
    }

    /** Appends one fragment to the manifest. */
    method SealNext(receiverId: string, kek: Option<Bytes>, prefix: string, fragments: seq<Fragment>, piece: Bytes,
                    draw: Draw, ghost cutting: Cutting)
      returns (more: seq<Fragment>, ghost cutting': Cutting)
      requires SealedAs(crypto, receiverId, kek, prefix, cutting.pieces, cutting.draws, fragments, files)
      modifies this`files
      ensures SealedAs(crypto, receiverId, kek, prefix, cutting'.pieces, cutting'.draws, more, files)
      ensures cutting' == Cutting(cutting.pieces + [piece], cutting.draws + [draw]) && |more| == |fragments| + 1
    {
      SealedAppend(crypto, receiverId, kek, prefix, cutting.pieces, cutting.draws, fragments, files, piece, draw);
      cutting' := Cutting(cutting.pieces + [piece], cutting.draws + [draw]);
      var f := EncryptForReceiver(receiverId, kek, prefix, |fragments|, piece, draw);
      more := fragments + [f];
    }

    /** Encrypts the fragments of a stream one after the other, as the outer loop of
        process_upload does, writing each ciphertext to the files directory. */
    method SealStream(stream: ByteStream, receiverId: string, kek: Option<Bytes>, prefix: string, policy: Policy,
                      random: nat -> Draw, blockedAfter: nat -> bool)
      returns (fragments: seq<Fragment>, master: Bytes, blocked: bool, ghost cutting: Cutting)
      requires policy.minChunk <= policy.maxChunk
      modifies this`files, stream
      ensures SealedAs(crypto, receiverId, kek, prefix, cutting.pieces, cutting.draws, fragments, files)
      ensures master == Flatten(cutting.pieces) && old(stream.rest) == master + stream.rest
      ensures policy.minChunk >= 1 ==> WellCut(cutting.pieces, policy) && (!blocked ==> stream.rest == [])
      ensures StopsAtBlock(blockedAfter, |fragments|, blocked)
    {
      fragments, master, blocked := [], [], false;
      cutting := Cutting([], []);
      var done := false;
      while !done
        invariant SealedAs(crypto, receiverId, kek, prefix, cutting.pieces, cutting.draws, fragments, files)
        invariant master == Flatten(cutting.pieces) && old(stream.rest) == master + stream.rest
        invariant CutSoFar(cutting.pieces, policy, stream.rest)
        invariant policy.minChunk >= 1 && done && !blocked ==> stream.rest == []
        invariant StopsAtBlock(blockedAfter, |fragments|, blocked) && (blocked ==> done)
        decreases |stream.rest|, !done
      {
        var piece := CutPiece(stream, policy, cutting.pieces, master, old(stream.rest));
        if piece == [] {
          done := true;
        } else {
          var id := |fragments|;
          fragments, cutting := SealNext(receiverId, kek, prefix, fragments, piece, random(id), cutting);
          master := master + piece;
          blocked := blockedAfter(id);
          done := blocked;
        }
      }
    }

    /** Moves the entries of the manifest from the files directory into the package. */
    method Pack(fragments: seq<Fragment>) returns (body: map<string, Bytes>)
      requires forall i :: 0 <= i < |fragments| ==> fragments[i].filename in files
      requires forall i, j :: 0 <= i < j < |fragments| ==> fragments[i].filename != fragments[j].filename
      modifies this`files
      ensures forall i :: 0 <= i < |fragments| ==>
          fragments[i].filename in body && body[fragments[i].filename] == old(files)[fragments[i].filename]
      ensures forall name <- body :: exists i :: 0 <= i < |fragments| && fragments[i].filename == name
      ensures forall i :: 0 <= i < |fragments| ==> fragments[i].filename !in files
    {
      body := map[];
      for i := 0 to |fragments|
        invariant forall k :: 0 <= k < i ==>
            fragments[k].filename in body && body[fragments[k].filename] == old(files)[fragments[k].filename]
        invariant forall k :: i <= k < |fragments| ==>
            fragments[k].filename in files && files[fragments[k].filename] == old(files)[fragments[k].filename]
        invariant forall k :: 0 <= k < i ==> fragments[k].filename !in files
        invariant forall name <- body :: exists k :: 0 <= k < i && fragments[k].filename == name
      {
        var name := fragments[i].filename;
        body := body[name := files[name]];
        files := files - {name};
      }
    }

    /** The key set-up of a transfer: claim a prekey for it, then establish the hybrid
        key when an engine and a policy were supplied. */
    method BeginTransfer(senderId: string, receiverId: string, transferId: string, hybrid: bool, r: Randomness,
                         prekeyRandom: nat -> Bytes)
      returns (kek: Option<Bytes>, meta: HybridMeta, ghost prekey: Bytes)
      requires Valid() && forall k :: crypto.ecValid(prekeyRandom(k))
      modifies this`registry, prekeys
      ensures Valid() && crypto.ecValid(prekey)
      ensures BoundTo(prekeys.rows, PrekeyOwner(receiverId), transferId, prekey)
      ensures NoneClaimed(old(prekeys.rows), transferId) ==> OnlyBound(prekeys.rows, transferId, prekey)
      ensures Setup(kek, meta, registry) == SetupFor(crypto, masterKey, old(registry), senderId, receiverId,
                                                     transferId, prekey, hybrid, r)
    {
      var publicPem;
      ghost var claimed;
      publicPem, claimed := prekeys.ClaimPrekey(PrekeyOwner(receiverId), transferId, prekeyRandom);
      prekey := prekeys.rows[claimed].privatePem;
      kek, meta := None, DISABLED;
      if hybrid {
        var setup := Initialize(crypto, masterKey, registry, senderId, receiverId, transferId, publicPem, r);
        InitializeRegistry(crypto, masterKey, registry, senderId, receiverId, transferId, publicPem, r);
        kek, meta, registry := setup.kek, setup.meta, setup.registry;
      }
    }

    /** Seals the whole stream and packs the fragments. */
    method SealAndPack(stream: ByteStream, receiverId: string, kek: Option<Bytes>, prefix: string, policy: Policy,
                       random: nat -> Draw, blockedAfter: nat -> bool)
      returns (fragments: seq<Fragment>, body: map<string, Bytes>, master: Bytes, blocked: bool, ghost cutting: Cutting)
      requires policy.minChunk <= policy.maxChunk
      modifies this`files, stream
      ensures StopsAtBlock(blockedAfter, |cutting.pieces|, blocked)
      ensures !blocked ==> SealedAs(crypto, receiverId, kek, prefix, cutting.pieces, cutting.draws, fragments, body)
      ensures master == Flatten(cutting.pieces) && old(stream.rest) == master + stream.rest
      ensures policy.minChunk >= 1 ==> WellCut(cutting.pieces, policy) && (!blocked ==> stream.rest == [])
    {
      body := map[];
      fragments, master, blocked, cutting := SealStream(stream, receiverId, kek, prefix, policy, random, blockedAfter);
      if blocked {
        return;
      }
      ghost var written := files;
      forall i, j | 0 <= i < j < |fragments| ensures fragments[i].filename != fragments[j].filename {
        SealedNames(crypto, receiverId, kek, prefix, cutting.pieces, cutting.draws, fragments, files, i, j);
      }
      assert forall i :: 0 <= i < |fragments| ==> SealedAt(crypto, receiverId, kek, prefix, cutting.pieces[i],
                                                           cutting.draws[i], i, fragments[i], files);
      body := Pack(fragments);
      SealedMoves(crypto, receiverId, kek, prefix, cutting.pieces, cutting.draws, fragments, written, body);
    }

    /** process_upload. It is blocked exactly when the monitor blocks the transfer after its
        last sealed fragment, and after no earlier one. On success the package holds exactly
        the pieces the stream was cut into, sealed for the receiver with the transfer key of
        the set-up, whose prekey is bound to the transfer; and for a policy with positive
        chunk sizes the pieces are the whole stream. */
    method ProcessUpload(stream: ByteStream, senderId: string, receiverId: string, prefix: string, policy: Policy,
                         hybrid: bool, packagePath: string, signature: Option<Signature>, requireTee: bool,
                         r: Randomness, random: nat -> Draw, prekeyRandom: nat -> Bytes, blockedAfter: nat -> bool)
      returns (result: Result<Upload, UploadError>, ghost cutting: Cutting, ghost prekey: Bytes)
      requires Valid() && forall k :: crypto.ecValid(prekeyRandom(k))
      modifies this, prekeys, stream
      ensures Valid()
      ensures result == Err(TeeUnavailable) <==> requireTee
      ensures result == Err(EmptyRange) <==> !requireTee && policy.minChunk > policy.maxChunk
      ensures StopsAtBlock(blockedAfter, |cutting.pieces|, result == Err(TransferBlocked))
      ensures old(stream.rest) == Flatten(cutting.pieces) + stream.rest
      ensures policy.minChunk >= 1 ==> WellCut(cutting.pieces, policy)
      ensures requireTee || policy.minChunk > policy.maxChunk ==> cutting.pieces == []
      ensures requireTee ==> registry == old(registry) && files == old(files) && prekeys.rows == old(prekeys.rows)
      ensures !requireTee ==>
                && crypto.ecValid(prekey) && BoundTo(prekeys.rows, PrekeyOwner(receiverId), Basename(packagePath),
                                                     prekey)
                && (NoneClaimed(old(prekeys.rows), Basename(packagePath)) ==>
                    OnlyBound(prekeys.rows, Basename(packagePath), prekey))
      ensures result.Ok? ==>
                var setup := SetupFor(crypto, masterKey, old(registry), senderId, receiverId, Basename(packagePath),
                                      prekey, hybrid, r);
                var pkg := result.value.pkg;
                && registry == setup.registry
                && pkg.manifest == Manifest(senderId, receiverId, setup.meta, pkg.manifest.fragments, signature)
                && SealedAs(crypto, receiverId, setup.kek, prefix, cutting.pieces, cutting.draws,
                            pkg.manifest.fragments, pkg.body)
                && result.value.fragmentCount == |cutting.pieces|
                && result.value.originalHash == crypto.lib.HexDigest(Flatten(cutting.pieces))
                && (policy.minChunk >= 1 ==> stream.rest == [])
    {
      cutting, prekey := Cutting([], []), [];
      if requireTee {
        return Err(TeeUnavailable), cutting, prekey;
      }
      var kek, meta;
      kek, meta, prekey := BeginTransfer(senderId, receiverId, Basename(packagePath), hybrid, r, prekeyRandom);
      if policy.minChunk > policy.maxChunk {
        return Err(EmptyRange), cutting, prekey;
      }
      var fragments, body, master, blocked;
      fragments, body, master, blocked, cutting := SealAndPack(stream, receiverId, kek, prefix, policy, random,
                                                               blockedAfter);
      if blocked {
        return Err(TransferBlocked), cutting, prekey;
      }
      result := Ok(Upload(Package(Manifest(senderId, receiverId, meta, fragments, signature), body), |fragments|,
                          crypto.lib.HexDigest(master)));
    }

    /** process_download_stream run to its end. The gates come first: a package they
        reject emits nothing and leaves the prekey pool as it was. Otherwise a prekey
        claimed for this receiver and package is removed, and the chunks and the error
        are those of Deliver for the key it held. */
    method ProcessDownload(pkg: Package, packagePath: string, receiverId: string, engine: bool, spki: string)
      returns (chunks: seq<Bytes>, error: Option<DownloadError>, ghost prekey: Option<Bytes>)
      requires Valid()
      modifies prekeys
      ensures Valid()
      ensures !Genuine(trust, pkg.manifest, receiverId, spki) ==>
                && chunks == [] && prekeys.rows == old(prekeys.rows)
                && GateFault(trust, pkg.manifest, receiverId, spki).Some?
                && error == Some(Gate(GateFault(trust, pkg.manifest, receiverId, spki).value))
      ensures chunks != [] || prekeys.rows != old(prekeys.rows) ==>
                forall signed :: OnlySigned(trust, spki, signed) ==> WasSigned(pkg.manifest, receiverId, signed)
      ensures Genuine(trust, pkg.manifest, receiverId, spki) ==>
                && Emission(chunks, error) == Deliver(crypto, masterKey, registry, pkg, receiverId,
                                                      Basename(packagePath), engine, prekey)
                && Retrieved(old(prekeys.rows), prekeys.rows, receiverId, Basename(packagePath), prekey)
    {
      chunks, error, prekey := [], None, None;
      var m := pkg.manifest;
      var fault := GateFault(trust, m, receiverId, spki);
      GateExactly(trust, m, receiverId, spki);
      forall signed | OnlySigned(trust, spki, signed) && fault.None? ensures WasSigned(m, receiverId, signed) {
        GenuineWasSigned(trust, m, receiverId, spki, signed);
      }
      if fault.Some? {
        error := Some(Gate(fault.value));
        return;
      }
      var fragments := SortById(m.fragments);
      var transferId := Basename(packagePath);
      var privatePem := prekeys.GetAndDelete(receiverId, transferId);
      prekey := privatePem;
      var kek: Option<Bytes> := None;
      if m.hybrid.enabled && engine {
        var recovered := Recover(crypto, masterKey, registry, m.senderId, receiverId, transferId, m.hybrid, privatePem);
        if recovered.Err? {
          error := Some(KeyExchange(recovered.error));
          return;
        }
        kek := recovered.value;
      }
      chunks, error := EmitChunks(kek, receiverId, pkg.body, fragments);
    }

    /** The generator's loop: it yields chunk after chunk until a fragment fails. */
    method EmitChunks(kek: Option<Bytes>, receiverId: string, body: map<string, Bytes>, fragments: seq<Fragment>)
      returns (chunks: seq<Bytes>, error: Option<DownloadError>)
      ensures Emission(chunks, error) == Emit(crypto, kek, receiverId, body, fragments)
    {
      chunks, error := [], None;
      ghost var whole := Emit(crypto, kek, receiverId, body, fragments);
      assert fragments[0..] == fragments;
      for i := 0 to |fragments|
        invariant error.None? && Continues(crypto, kek, receiverId, body, fragments[i..], chunks, whole)
      {
        var outcome := Open(crypto, kek, receiverId, body, fragments[i]);
        EmitsNext(crypto, kek, receiverId, body, fragments, i, chunks, whole);
        if outcome.Err? {
          error := Some(outcome.error);
          return;
        }
        chunks := chunks + [outcome.value];
      }
    }
  }

  /** The whole emission is what was emitted so far and what the remaining fragments emit. */
  ghost predicate Continues(c: Crypto, kek: Option<Bytes>, receiverId: string, body: map<string, Bytes>,
                            rest: seq<Fragment>, chunks: seq<Bytes>, whole: Emission)
  {
    var e := Emit(c, kek, receiverId, body, rest);
    whole == Emission(chunks + e.chunks, e.error)
  }

  lemma EmitsNext(c: Crypto, kek: Option<Bytes>, receiverId: string, body: map<string, Bytes>,
                  fragments: seq<Fragment>, i: nat, chunks: seq<Bytes>, whole: Emission)
    requires i < |fragments| && Continues(c, kek, receiverId, body, fragments[i..], chunks, whole)
    ensures match Open(c, kek, receiverId, body, fragments[i])
            case Ok(chunk) => Continues(c, kek, receiverId, body, fragments[i + 1..], chunks + [chunk], whole)
            case Err(error) => whole == Emission(chunks, Some(error))
  {
    Split(fragments, i);
    match Open(c, kek, receiverId, body, fragments[i])
    case Ok(chunk) =>
      EmitStep(c, kek, receiverId, body, fragments[i..], chunk);
      var rest := Emit(c, kek, receiverId, body, fragments[i + 1..]);
      assert chunks + ([chunk] + rest.chunks) == (chunks + [chunk]) + rest.chunks;
    case Err(_) =>
  }

  lemma SealedNames(c: Crypto, receiverId: string, kek: Option<Bytes>, prefix: string, pieces: seq<Bytes>,
                    draws: seq<Draw>, fragments: seq<Fragment>, files: map<string, Bytes>, i: nat, j: nat)
    requires SealedAs(c, receiverId, kek, prefix, pieces, draws, fragments, files) && i < j < |fragments|
    ensures fragments[i].filename != fragments[j].filename
  {
    assert SealedAt(c, receiverId, kek, prefix, pieces[i], draws[i], i, fragments[i], files);
    assert SealedAt(c, receiverId, kek, prefix, pieces[j], draws[j], j, fragments[j], files);
    if fragments[i].filename == fragments[j].filename {
      FragmentNamesDistinct(prefix, i, j);
    }
  }

  lemma SealedMoves(c: Crypto, receiverId: string, kek: Option<Bytes>, prefix: string, pieces: seq<Bytes>,
                    draws: seq<Draw>, fragments: seq<Fragment>, files: map<string, Bytes>, body: map<string, Bytes>)
    requires SealedAs(c, receiverId, kek, prefix, pieces, draws, fragments, files)
    requires forall i :: 0 <= i < |fragments| ==> fragments[i].filename in body && fragments[i].filename in files
                                                  && body[fragments[i].filename] == files[fragments[i].filename]
    ensures SealedAs(c, receiverId, kek, prefix, pieces, draws, fragments, body)
  {
    forall i | 0 <= i < |fragments|
      ensures SealedAt(c, receiverId, kek, prefix, pieces[i], draws[i], i, fragments[i], body)
    {
      assert SealedAt(c, receiverId, kek, prefix, pieces[i], draws[i], i, fragments[i], files);
    }
  }

  /** What a package produced by an upload delivers to its receiver, with the prekey
      of the upload, while the registry is as the upload left it. */
  lemma UploadDelivers(c: Crypto, masterKey: Bytes, registry: K.Table, senderId: string, receiverId: string,
                       transferId: string, prekey: Bytes, hybrid: bool, r: Randomness, prefix: string,
                       cutting: Cutting, pkg: Package, engine: bool)
    requires c.Lawful() && K.Valid(c, masterKey, registry) && c.ecValid(r.ephemeral) && c.ecValid(prekey)
    requires var setup := SetupFor(c, masterKey, registry, senderId, receiverId, transferId, prekey, hybrid, r);
             && pkg.manifest.senderId == senderId && pkg.manifest.hybrid == setup.meta
             && SealedAs(c, receiverId, setup.kek, prefix, cutting.pieces, cutting.draws, pkg.manifest.fragments,
                         pkg.body)
    ensures var setup := SetupFor(c, masterKey, registry, senderId, receiverId, transferId, prekey, hybrid, r);
            Deliver(c, masterKey, setup.registry, pkg, receiverId, transferId, engine, Some(prekey)) ==
                Emission(cutting.pieces, None)
    ensures pkg.manifest.hybrid.enabled ==> pkg.manifest.hybrid.mode == "HYBRID"
  {
    var choice := if hybrid then r else r.(kemAvailable := false);
    var setup := Initialize(c, masterKey, registry, senderId, receiverId, transferId, PublicHalf(c, Some(prekey)),
                            choice);
    assert setup == SetupFor(c, masterKey, registry, senderId, receiverId, transferId, prekey, hybrid, r);
    assert K.Rotations(c, masterKey, setup.registry, []) == setup.registry;
    InitializeRegistry(c, masterKey, registry, senderId, receiverId, transferId, PublicHalf(c, Some(prekey)), choice);
    RoundTrip(c, masterKey, registry, senderId, receiverId, transferId, Some(prekey), choice, [], prefix,
              cutting.pieces, cutting.draws, pkg.manifest.fragments, pkg, engine);
  }

  lemma NoOtherError(result: Result<Upload, UploadError>)
    requires result != Err(TransferBlocked) && result != Err(TeeUnavailable) && result != Err(EmptyRange)
    ensures result.Ok?
  {
    match result
    case Ok(_) =>
    case Err(TransferBlocked) =>
    case Err(TeeUnavailable) =>
    case Err(EmptyRange) =>
  }

  /** The two procedures together, for any data, stream, context, ciphers and random choices, under a fresh
      package name: the first accepted download returns the file exactly when the receiver id names its own
      prekeys or the transfer is not hybrid; otherwise it returns nothing but the error of a missing prekey.
      A second download of a hybrid package returns nothing. */
  method SendAndReceive(e: PFCEEngine, data: Bytes, senderId: string, receiverId: string, prefix: string,
                        context: Option<Context>, packagePath: string, signature: Option<Signature>, spki: string,
                        r: Randomness, random: nat -> Draw, prekeyRandom: nat -> Bytes)
    returns (pkg: Package, first: Emission, second: Emission)
    requires e.Valid() && e.crypto.ecValid(r.ephemeral) && (forall k :: e.crypto.ecValid(prekeyRandom(k)))
    requires NoneClaimed(e.prekeys.rows, Basename(packagePath))
    modifies e, e.prekeys
    ensures Genuine(e.trust, pkg.manifest, receiverId, spki) ==>
              && (first.error == None <==> PrekeyOwner(receiverId) == receiverId || !pkg.manifest.hybrid.enabled)
              && (first.error == None ==> Flatten(first.chunks) == data)
              && (first.error != None ==> first == Emission([], Some(KeyExchange(MissingPrekey))))
              && (pkg.manifest.hybrid.enabled ==> second == Emission([], Some(KeyExchange(MissingPrekey))))
    ensures !Genuine(e.trust, pkg.manifest, receiverId, spki) ==> first.chunks == second.chunks == []
  {
    first, second := Emission([], None), Emission([], None);
    var stream := new ByteStream(data);
    ghost var registry := e.registry;
    var never := (k: nat) => false;
    var result;
    ghost var cutting, prekey;
    result, cutting, prekey := e.ProcessUpload(stream, senderId, receiverId, prefix, PolicyFor(context), context.Some?,
                                               packagePath,
                                               signature, false, r, random, prekeyRandom, never);
    assert result.Ok? by {
      assert result != Err(TransferBlocked) && result != Err(TeeUnavailable) && result != Err(EmptyRange);
      NoOtherError(result);
    }
    pkg := result.value.pkg;
    UploadDelivers(e.crypto, e.masterKey, registry, senderId, receiverId, Basename(packagePath), prekey, context.Some?,
                   r, prefix, cutting, pkg, true);
    first, second := ReceiveTwice(e, pkg, packagePath, PrekeyOwner(receiverId), receiverId, spki, prekey,
                                  cutting.pieces);
  }

  /** What two downloads find when the prekey is still there, bound to this owner. */
  method ReceiveTwice(e: PFCEEngine, pkg: Package, packagePath: string, ghost owner: string, receiverId: string,
                      spki: string, ghost prekey: Bytes, ghost pieces: seq<Bytes>)
    returns (first: Emission, second: Emission)
    requires e.Valid() && BoundTo(e.prekeys.rows, owner, Basename(packagePath), prekey)
        && OnlyBound(e.prekeys.rows, Basename(packagePath), prekey)
    requires Deliver(e.crypto, e.masterKey, e.registry, pkg, receiverId, Basename(packagePath), true, Some(prekey)) ==
        Emission(pieces, None)
    requires pkg.manifest.hybrid.enabled ==> pkg.manifest.hybrid.mode == "HYBRID"
    modifies e.prekeys
    ensures Genuine(e.trust, pkg.manifest, receiverId, spki) ==>
              && first == (if owner == receiverId || !pkg.manifest.hybrid.enabled then Emission(pieces, None)
                           else Emission([], Some(KeyExchange(MissingPrekey))))
              && (pkg.manifest.hybrid.enabled ==> second == Emission([], Some(KeyExchange(MissingPrekey))))
    ensures !Genuine(e.trust, pkg.manifest, receiverId, spki) ==> first.chunks == second.chunks == []
  {
    ghost var rows := e.prekeys.rows;
    var chunks, error;
    ghost var handed;
    chunks, error, handed := e.ProcessDownload(pkg, packagePath, receiverId, true, spki);
    first := Emission(chunks, error);
    ghost var left := e.prekeys.rows;
    if Genuine(e.trust, pkg.manifest, receiverId, spki) {
      RetrievesTheKey(rows, left, owner, receiverId, Basename(packagePath), prekey, handed);
    }
    chunks, error, handed := e.ProcessDownload(pkg, packagePath, receiverId, true, spki);
    second := Emission(chunks, error);
    if Genuine(e.trust, pkg.manifest, receiverId, spki) {
      if owner != receiverId {
        RetrievesTheKey(rows, e.prekeys.rows, owner, receiverId, Basename(packagePath), prekey, handed);
      }
      assert handed == None;
    }
  }
}
