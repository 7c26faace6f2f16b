// The PFCE package: what sealing a fragment writes, what opening one checks, the
// signature gates of a download and the chunks it emits.

module PfcePackage {
  import opened Basics
  import opened Text
  import opened Primitives
  import opened HybridKex
  import opened TransferSignature
  import KeyRegistry

  // ---- The package ----

  /** One entry of manifest["fragments"]. None stands for a missing key. */
  datatype Fragment = Fragment(
    id: nat,
    filename: string,
    encryptedKey: string,
    nonce: string,
    cipherAlgorithm: string,
    hybridWrappedKey: Option<string>,
    hybridWrapNonce: Option<string>,
    hash: string,
    ciphertextSha256: Option<string>,
    size: nat)

  datatype Signature = Signature(
    signerId: Option<string>,
    algorithm: string,
    keyFingerprint: string,
    transferId: string,
    fileSize: Option<nat>,
    originalSha256: string,
    signedAt: string,
    nonce: string,
    signature: string)

  datatype Manifest = Manifest(
    senderId: string,
    receiverId: string,
    hybrid: HybridMeta,
    fragments: seq<Fragment>,
    signature: Option<Signature>)

  datatype Package = Package(manifest: Manifest, body: map<string, Bytes>)

  const CHACHA := "ChaCha20-Poly1305"
  const AES := "AES-256-GCM"

  function CipherName(cipher: Cipher): string {
    if cipher.ChaCha20Poly1305? then CHACHA else AES
  }

  /** Anything but the ChaCha20 name is decrypted as AES-GCM. */
  function CipherOf(name: string): Cipher {
    if name == CHACHA then ChaCha20Poly1305 else Aes256Gcm
  }

  lemma CipherRoundTrip(cipher: Cipher)
    ensures CipherOf(CipherName(cipher)) == cipher
  {
    assert |CHACHA| != |AES|;
  }

  // ---- Sealing ----

  /** The random choices made for one fragment. */
  datatype Draw = Draw(key: Bytes, nonce: Bytes, cipher: Cipher, padding: Bytes, wrapNonce: Bytes)

  function FragmentName(prefix: string, id: nat): string {
    Basename(prefix + "_frag_" + Str(id) + ".enc")
  }

  function Ciphertext(c: Crypto, piece: Bytes, d: Draw): Bytes {
    c.aeadEncrypt(d.cipher, d.key, d.nonce, piece)
  }

  /** The manifest entry of a fragment: its key wrapped for the receiver's RSA key
      and, in a hybrid transfer, under the transfer key. */
  function Seal(c: Crypto, receiverId: string, kek: Option<Bytes>, prefix: string, id: nat, piece: Bytes, d: Draw)
    : Fragment {
    Fragment(
      id,
      FragmentName(prefix, id),
      c.base64(c.rsaEncrypt(receiverId, d.padding, d.key)),
      c.base64(d.nonce),
      CipherName(d.cipher),
      if kek.Some? then Some(c.base64(c.aeadEncrypt(Aes256Gcm, kek.value, d.wrapNonce, d.key))) else None,
      if kek.Some? then Some(c.base64(d.wrapNonce)) else None,
      c.lib.HexDigest(piece),
      Some(c.lib.HexDigest(Ciphertext(c, piece, d))),
      |piece|)
  }

  lemma FragmentNamesDistinct(prefix: string, i: nat, j: nat)
    requires FragmentName(prefix, i) == FragmentName(prefix, j)
    ensures i == j
  {
    var base := prefix + "_frag_";
    NameSplits(base, i);
    NameSplits(base, j);
    var b := Basename(base);
    assert Basename(base + Str(i) + ".enc")[|b|..][..|Str(i)|] == Str(i);
    assert Basename(base + Str(j) + ".enc")[|b|..][..|Str(j)|] == Str(j);
    assert |Str(i)| == |Str(j)|;
    StrInjective(i, j);
  }

  lemma NameSplits(base: string, id: nat)
    ensures Basename(base + Str(id) + ".enc") == Basename(base) + Str(id) + ".enc"
  {
    BasenameAppend(base, Str(id));
    BasenameAppend(base + Str(id), ".enc");
  }

  // ---- Opening ----

  datatype GateError =
    | SignatureMissing | SignerIdMissing | SignerIdMismatch | UnsupportedAlgorithm
    | KeyTooSmall | FingerprintMismatch | SignatureInvalid

  datatype DownloadError =
    | Gate(reason: GateError)
    | KeyExchange(error: KexError)
    | MissingFragment(id: nat)
    | CiphertextMismatch(id: nat)
    | HybridUnwrapFailed(id: nat)
    | RsaUnwrapFailed(id: nat)
    | NoKeyWrap(id: nat)
    | DecryptionFailed(id: nat)
    | IntegrityFailed(id: nat)

  predicate Present(s: Option<string>) {
    s.Some? && s.value != ""
  }

  /** The fragment key: by the transfer key when there is one and the entry carries
      a wrap for it, otherwise by RSA. */
  function UnwrapKey(c: Crypto, kek: Option<Bytes>, receiverId: string, f: Fragment): Result<Bytes, DownloadError> {
    if kek.Some? && Present(f.hybridWrappedKey) && Present(f.hybridWrapNonce) then
      match (c.unbase64(f.hybridWrappedKey.value), c.unbase64(f.hybridWrapNonce.value))
      case (Some(wrapped), Some(nonce)) =>
        (match c.aeadDecrypt(Aes256Gcm, kek.value, nonce, wrapped)
         case Some(key) => Ok(key)
         case None => Err(HybridUnwrapFailed(f.id)))
      case _ => Err(HybridUnwrapFailed(f.id))
    else if f.encryptedKey != "" then
      match c.unbase64(f.encryptedKey)
      case None => Err(RsaUnwrapFailed(f.id))
      case Some(wrapped) =>
        match c.rsaDecrypt(receiverId, wrapped)
        case Some(key) => Ok(key)
        case None => Err(RsaUnwrapFailed(f.id))
    else Err(NoKeyWrap(f.id))
  }

  function Decrypt(c: Crypto, key: Bytes, f: Fragment, ciphertext: Bytes): Result<Bytes, DownloadError> {
    match c.unbase64(f.nonce)
    case None => Err(DecryptionFailed(f.id))
    case Some(nonce) =>
      match c.aeadDecrypt(CipherOf(f.cipherAlgorithm), key, nonce, ciphertext)
      case None => Err(DecryptionFailed(f.id))
      case Some(chunk) => if c.lib.HexDigest(chunk) != f.hash then Err(IntegrityFailed(f.id)) else Ok(chunk)
  }

  /** The body of the download loop for one fragment. */
  function Open(c: Crypto, kek: Option<Bytes>, receiverId: string, body: map<string, Bytes>, f: Fragment)
    : Result<Bytes, DownloadError>
  {
    if f.filename !in body then Err(MissingFragment(f.id))
    else
      var ciphertext := body[f.filename];
      if f.ciphertextSha256.Some? && f.ciphertextSha256.value != c.lib.HexDigest(ciphertext)
          then Err(CiphertextMismatch(f.id))
      else match UnwrapKey(c, kek, receiverId, f)
        case Err(e) => Err(e)
        case Ok(key) => Decrypt(c, key, f, ciphertext)
  }

  /** What a generator has yielded when it stops, and why it stopped. */
  datatype Emission = Emission(chunks: seq<Bytes>, error: Option<DownloadError>)

  function Emit(c: Crypto, kek: Option<Bytes>, receiverId: string, body: map<string, Bytes>, fragments: seq<Fragment>)
    : Emission {
    if fragments == [] then Emission([], None)
    else match Open(c, kek, receiverId, body, fragments[0])
      case Err(e) => Emission([], Some(e))
      case Ok(chunk) =>
        var rest := Emit(c, kek, receiverId, body, fragments[1..]);
        Emission([chunk] + rest.chunks, rest.error)
  }

  // ---- The order of the fragments ----

  /** sorted(fragments, key=fragment_id), a stable sort. */
  function SortById(fragments: seq<Fragment>): seq<Fragment> {
    if fragments == [] then []
    else InsertById(SortById(fragments[..|fragments| - 1]), fragments[|fragments| - 1])
  }

  function InsertById(sorted: seq<Fragment>, f: Fragment): seq<Fragment> {
    if sorted != [] && sorted[|sorted| - 1].id > f.id then
      InsertById(sorted[..|sorted| - 1], f) + [sorted[|sorted| - 1]]
    else sorted + [f]
  }

  predicate Ascending(fragments: seq<Fragment>) {
    forall i, j :: 0 <= i < j < |fragments| ==> fragments[i].id <= fragments[j].id
  }

  lemma {:induction false} InsertByIdOk(sorted: seq<Fragment>, f: Fragment)
    requires Ascending(sorted)
    ensures Ascending(InsertById(sorted, f))
    ensures multiset(InsertById(sorted, f)) == multiset(sorted) + multiset{f}
  {
    if sorted != [] && sorted[|sorted| - 1].id > f.id {
      var init, last := sorted[..|sorted| - 1], sorted[|sorted| - 1];
      assert sorted == init + [last];
      InsertByIdOk(init, f);
      var inner := InsertById(init, f);
      forall i | 0 <= i < |inner| ensures inner[i].id <= last.id {
        assert inner[i] in multiset(inner);
        assert inner[i] in multiset(init) || inner[i] == f;
        assert inner[i] in init || inner[i] == f;
      }
    }
  }

  lemma {:induction false} SortByIdOk(fragments: seq<Fragment>)
    ensures Ascending(SortById(fragments))
    ensures multiset(SortById(fragments)) == multiset(fragments)
  {
    if fragments != [] {
      var n := |fragments| - 1;
      assert fragments == fragments[..n] + [fragments[n]];
      SortByIdOk(fragments[..n]);
      InsertByIdOk(SortById(fragments[..n]), fragments[n]);
    }
  }

  /** Ids 0, 1, 2, ... in order, as the upload numbers them. */
  predicate Numbered(fragments: seq<Fragment>) {
    forall i :: 0 <= i < |fragments| ==> fragments[i].id == i
  }

  /** No two different entries share an id. */
  predicate IdsDetermine(fragments: seq<Fragment>) {
    forall i, j :: 0 <= i < |fragments| && 0 <= j < |fragments| && fragments[i].id == fragments[j].id ==>
        fragments[i] == fragments[j]
  }

  lemma DropLast(s: seq<Fragment>)
    requires s != []
    ensures multiset(s[..|s| - 1]) == multiset(s) - multiset{s[|s| - 1]}
    ensures Ascending(s) ==> Ascending(s[..|s| - 1])
    ensures IdsDetermine(s) ==> IdsDetermine(s[..|s| - 1])
  {
    assert s == s[..|s| - 1] + [s[|s| - 1]];
  }

  lemma LastMatches(a: seq<Fragment>, b: seq<Fragment>)
    requires Ascending(a) && Ascending(b) && multiset(a) == multiset(b) && a != [] && b != []
    requires IdsDetermine(b)
    ensures a[|a| - 1] == b[|b| - 1]
  {
    var x, y := a[|a| - 1], b[|b| - 1];
    assert x in multiset(b) && y in multiset(a);
    var i :| 0 <= i < |b| && b[i] == x;
    var j :| 0 <= j < |a| && a[j] == y;
  }

  lemma SameInits(a: seq<Fragment>, b: seq<Fragment>)
    requires a != [] && b != [] && multiset(a) == multiset(b) && a[|a| - 1] == b[|b| - 1]
    requires Ascending(a) && Ascending(b) && IdsDetermine(b)
    ensures var init, init' := a[..|a| - 1], b[..|b| - 1];
            Ascending(init) && Ascending(init') && IdsDetermine(init') && multiset(init) == multiset(init')
  {
    DropLast(a);
    DropLast(b);
  }

  lemma {:induction false} AscendingUnique(a: seq<Fragment>, b: seq<Fragment>)
    requires Ascending(a) && Ascending(b) && multiset(a) == multiset(b)
    requires IdsDetermine(b)
    ensures a == b
    decreases |a|
  {
    assert |a| == |multiset(a)| == |multiset(b)| == |b|;
    if a != [] {
      LastMatches(a, b);
      var init, init' := a[..|a| - 1], b[..|b| - 1];
      SameInits(a, b);
      AscendingUnique(init, init');
      assert a == init + [a[|a| - 1]] && b == init' + [b[|b| - 1]];
    }
  }

  /** Sorting any permutation of a numbered list restores the list. */
  lemma SortRestores(shuffled: seq<Fragment>, fragments: seq<Fragment>)
    requires Numbered(fragments) && multiset(shuffled) == multiset(fragments)
    ensures SortById(shuffled) == fragments
  {
    SortByIdOk(shuffled);
    AscendingUnique(SortById(shuffled), fragments);
  }

  // ---- The signature gates ----

  /** Signature verification and key lookups of the download. */
  datatype Trust = Trust(
    verify: (string, string, string) -> bool,  // payload, signature, public key
    fingerprint: string -> string,
    keySize: string -> nat)

  function TotalSize(fragments: seq<Fragment>): nat {
    if fragments == [] then 0 else TotalSize(fragments[..|fragments| - 1]) + fragments[|fragments| - 1].size
  }

  function Payload(m: Manifest, s: Signature, signerId: string, receiverId: string): string {
    "UPCE-TRANSFER-SIGNATURE-V1\n"
    + "transfer_id=" + s.transferId + "\n"
    + "sender_id=" + signerId + "\n"
    + "receiver_id=" + receiverId + "\n"
    + "file_sha256=" + s.originalSha256 + "\n"
    + "file_size=" + Str(if s.fileSize.Some? then s.fileSize.value else TotalSize(m.fragments)) + "\n"
    + "issued_at=" + s.signedAt + "\n"
    + "nonce=" + s.nonce
  }

  /** The first gate that rejects the package, if any. */
  function GateFault(t: Trust, m: Manifest, receiverId: string, spki: string): Option<GateError> {
    match m.signature
    case None => Some(SignatureMissing)
    case Some(s) =>
      if !Present(s.signerId) then Some(SignerIdMissing)
      else if s.signerId.value != m.senderId then Some(SignerIdMismatch)
      else if s.algorithm != "RSA-PSS-SHA256" then Some(UnsupportedAlgorithm)
      else if t.keySize(s.signerId.value) < 2048 then Some(KeyTooSmall)
      else if s.keyFingerprint != t.fingerprint(spki) then Some(FingerprintMismatch)
      else if !t.verify(Payload(m, s, s.signerId.value, receiverId), s.signature, spki) then Some(SignatureInvalid)
      else None
  }

  /** What the manifest and the receiver say the sender declared. */
  function Declared(m: Manifest, s: Signature, receiverId: string): Declaration {
    Declaration(s.transferId, m.senderId, receiverId, s.originalSha256,
                if s.fileSize.Some? then s.fileSize.value else TotalSize(m.fragments), s.signedAt, s.nonce)
  }

  /** The key that is looked up for the signer and the one that was supplied are accepted. */
  predicate AcceptedKey(t: Trust, s: Signature, spki: string) {
    && s.signerId.Some? && t.keySize(s.signerId.value) >= 2048
    && s.algorithm == "RSA-PSS-SHA256" && s.keyFingerprint == t.fingerprint(spki)
  }

  /** The package is signed by its declared sender, under an accepted key. */
  predicate Genuine(t: Trust, m: Manifest, receiverId: string, spki: string) {
    && m.signature.Some? && m.signature.value.signerId == Some(m.senderId) && m.senderId != ""
    && AcceptedKey(t, m.signature.value, spki)
    && t.verify(SigningText(Declared(m, m.signature.value, receiverId)), m.signature.value.signature, spki)
  }

  /** The gates let exactly the genuine packages pass. */
  lemma GateExactly(t: Trust, m: Manifest, receiverId: string, spki: string)
    ensures GateFault(t, m, receiverId, spki) == None <==> Genuine(t, m, receiverId, spki)
  {
    if m.signature.Some? && m.signature.value.signerId == Some(m.senderId) {
      SameText(m, m.signature.value, receiverId);
    }
  }

  /** The server verifies the very text that the client signs. */
  lemma SameText(m: Manifest, s: Signature, receiverId: string)
    ensures Payload(m, s, m.senderId, receiverId) == SigningText(Declared(m, s, receiverId))
  {}

  /** Which fault is reported: the first of the conditions that is not met. */
  lemma FaultExactly(t: Trust, m: Manifest, receiverId: string, spki: string)
    ensures var fault := GateFault(t, m, receiverId, spki);
            && (fault == Some(SignatureMissing) <==> m.signature == None)
            && (m.signature.Some? ==>
                  var s := m.signature.value;
                  && (fault == Some(SignerIdMissing) <==> s.signerId == None || s.signerId == Some(""))
                  && (s.signerId.Some? && s.signerId.value != "" ==>
                        var named := s.signerId.value == m.senderId;
                        var scheme := named && s.algorithm == "RSA-PSS-SHA256";
                        var sized := scheme && t.keySize(m.senderId) >= 2048;
                        var printed := sized && s.keyFingerprint == t.fingerprint(spki);
                        && (fault == Some(SignerIdMismatch) <==> !named)
                        && (fault == Some(UnsupportedAlgorithm) <==> named && !scheme)
                        && (fault == Some(KeyTooSmall) <==> scheme && !sized)
                        && (fault == Some(FingerprintMismatch) <==> sized && !printed)
                        && (fault == Some(SignatureInvalid) <==> printed && !Genuine(t, m, receiverId, spki))))
  {
    GateExactly(t, m, receiverId, spki);
  }

  ghost predicate SignedText(text: string, signed: iset<Declaration>) {
    exists d :: d in signed && text == SigningText(d)
  }

  /** Under this key only texts that its holder signed verify; the holder declares no line breaks. */
  ghost predicate OnlySigned(t: Trust, spki: string, signed: iset<Declaration>) {
    && (forall d <- signed :: OneLine(d))
    && forall text, signature :: t.verify(text, signature, spki) ==> SignedText(text, signed)
  }

  /** The holder signed the sender, the receiver, the transfer, the hash, the size, the time and the
      nonce of this download. */
  ghost predicate WasSigned(m: Manifest, receiverId: string, signed: iset<Declaration>) {
    exists d :: d in signed && m.signature.Some?
      && d.senderId == m.senderId && d.receiverId == receiverId
      && d.transferId == m.signature.value.transferId && d.sha256 == m.signature.value.originalSha256
      && d.size == (if m.signature.value.fileSize.Some? then m.signature.value.fileSize.value
                    else TotalSize(m.fragments))
      && d.issuedAt == m.signature.value.signedAt && d.nonce == m.signature.value.nonce
  }

  /** What verifies for a genuine package is one declaration of the sender, field by field. */
  lemma GenuineWasSigned(t: Trust, m: Manifest, receiverId: string, spki: string, signed: iset<Declaration>)
    requires Genuine(t, m, receiverId, spki) && OnlySigned(t, spki, signed)
    ensures WasSigned(m, receiverId, signed)
  {
    var declared := Declared(m, m.signature.value, receiverId);
    assert SignedText(SigningText(declared), signed);
    var d :| d in signed && SigningText(declared) == SigningText(d);
    TextDetermines(d, declared);
  }

  // ---- A whole download ----

  /** Everything after the gates, given what the prekey pool handed out. */
  function Deliver(c: Crypto, masterKey: Bytes, registry: KeyRegistry.Table, pkg: Package, receiverId: string,
                   transferId: string, engine: bool, prekeyPrivate: Option<Bytes>): Emission
  {
    var m := pkg.manifest;
    var fragments := SortById(m.fragments);
    if m.hybrid.enabled && engine then
      match Recover(c, masterKey, registry, m.senderId, receiverId, transferId, m.hybrid, prekeyPrivate)
      case Err(e) => Emission([], Some(KeyExchange(e)))
      case Ok(kek) => Emit(c, kek, receiverId, pkg.body, fragments)
    else Emit(c, None, receiverId, pkg.body, fragments)
  }
}
