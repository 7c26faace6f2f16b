// The versioned ML-KEM key registry: generating a key retires the active one and
// inserts the next version; decapsulation asks for a version, encapsulation for
// the active key.

module KeyRegistry {
  import opened Basics
  import opened Primitives

  /** A row of pqc_keys. Key columns are base64; the secret key is sealed under
      the master key. */
  datatype PqcKey = PqcKey(
    user: string,
    version: nat,
    publicKey: string,
    sealedKey: string,
    nonce: string,
    active: bool,
    retiredAt: Option<int>)

  type Table = seq<PqcKey>

  datatype KeyError = NoActiveKey | NoSuchVersion | Unsealable

  /** filter(...).first() for the active key of a user. */
  function FindActive(rows: Table, user: string): (i: Option<nat>)
    ensures i.Some? ==> i.value < |rows| && rows[i.value].user == user && rows[i.value].active
    ensures i.None? ==> forall k :: 0 <= k < |rows| ==> !(rows[k].user == user && rows[k].active)
  {
    if rows == [] then None
    else
      var before := FindActive(rows[..|rows| - 1], user);
      var last := rows[|rows| - 1];
      if before.Some? then before
      else if last.user == user && last.active then Some(|rows| - 1)
      else None
  }

  function FindVersion(rows: Table, user: string, version: nat): (i: Option<nat>)
    ensures i.Some? ==> i.value < |rows| && rows[i.value].user == user && rows[i.value].version == version
    ensures i.None? ==> forall k :: 0 <= k < |rows| ==> !(rows[k].user == user && rows[k].version == version)
  {
    if rows == [] then None
    else
      var before := FindVersion(rows[..|rows| - 1], user, version);
      var last := rows[|rows| - 1];
      if before.Some? then before
      else if last.user == user && last.version == version then Some(|rows| - 1)
      else None
  }

  function Retire(rows: Table, i: nat, now: int): Table
    requires i < |rows|
  {
    rows[i := rows[i].(active := false, retiredAt := Some(now))]
  }

  function NewKey(c: Crypto, masterKey: Bytes, user: string, version: nat, seed: Bytes, nonce: Bytes): PqcKey {
    var (publicKey, secretKey) := c.kemKeyPair(seed);
    PqcKey(user, version, c.base64(publicKey), c.base64(c.aeadEncrypt(Aes256Gcm, masterKey, nonce, secretKey)),
           c.base64(nonce), true, None)
  }

  function Generate(c: Crypto, masterKey: Bytes, rows: Table, user: string, seed: Bytes, nonce: Bytes, now: int)
    : Table {
    match FindActive(rows, user)
    case None => rows + [NewKey(c, masterKey, user, 1, seed, nonce)]
    case Some(i) => Retire(rows, i, now) + [NewKey(c, masterKey, user, rows[i].version + 1, seed, nonce)]
  }

  datatype ActiveKey = ActiveKey(publicKey: Bytes, version: nat)

  function GetActive(c: Crypto, rows: Table, user: string): Result<ActiveKey, KeyError> {
    match FindActive(rows, user)
    case None => Err(NoActiveKey)
    case Some(i) =>
      match c.unbase64(rows[i].publicKey)
      case None => Err(Unsealable)
      case Some(publicKey) => Ok(ActiveKey(publicKey, rows[i].version))
  }

  function Unseal(c: Crypto, masterKey: Bytes, row: PqcKey): Option<Bytes> {
    match (c.unbase64(row.sealedKey), c.unbase64(row.nonce))
    case (Some(sealedKey), Some(nonce)) => c.aeadDecrypt(Aes256Gcm, masterKey, nonce, sealedKey)
    case _ => None
  }

  function Decapsulate(c: Crypto, masterKey: Bytes, rows: Table, ciphertext: Bytes, user: string, version: nat)
    : Result<Bytes, KeyError>
  {
    match FindVersion(rows, user, version)
    case None => Err(NoSuchVersion)
    case Some(i) =>
      match Unseal(c, masterKey, rows[i])
      case None => Err(Unsealable)
      case Some(secretKey) => Ok(c.kemDecapsulate(secretKey, ciphertext))
  }

  // ---- What the registry keeps ----

  /** The rows of one user, oldest first. */
  function OfUser(rows: Table, user: string): Table {
    if rows == [] then []
    else
      var last := rows[|rows| - 1];
      OfUser(rows[..|rows| - 1], user) + if last.user == user then [last] else []
  }

  /** Versions 1..n, of which only the newest is active. */
  ghost predicate Versioned(keys: Table) {
    forall k :: 0 <= k < |keys| ==> keys[k].version == k + 1 && (keys[k].active <==> k == |keys| - 1)
  }

  /** Both halves of the row come from one key generation. */
  ghost predicate Paired(c: Crypto, masterKey: Bytes, row: PqcKey) {
    exists seed :: PairedBy(c, masterKey, row, seed)
  }

  ghost predicate PairedBy(c: Crypto, masterKey: Bytes, row: PqcKey, seed: Bytes) {
    && c.unbase64(row.publicKey) == Some(c.kemKeyPair(seed).0)
    && Unseal(c, masterKey, row) == Some(c.kemKeyPair(seed).1)
  }

  ghost predicate Valid(c: Crypto, masterKey: Bytes, rows: Table) {
    && (forall user :: Versioned(OfUser(rows, user)))
    && (forall i :: 0 <= i < |rows| ==> Paired(c, masterKey, rows[i]))
  }

  /** Nothing but the active flag and the retirement date ever changes. */
  ghost predicate Later(rows: Table, rows': Table) {
    |rows| <= |rows'| && forall i :: 0 <= i < |rows| ==> SameKey(rows[i], rows'[i])
  }

  predicate SameKey(row: PqcKey, row': PqcKey) {
    row'.(active := row.active, retiredAt := row.retiredAt) == row
  }

  lemma OfUserAppend(rows: Table, row: PqcKey, user: string)
    ensures OfUser(rows + [row], user) == OfUser(rows, user) + if row.user == user then [row] else []
  {
    assert (rows + [row])[..|rows|] == rows;
  }

  /** The position of a row among its user's rows. */
  function Rank(rows: Table, i: nat): nat
    requires i < |rows|
  {
    |OfUser(rows[..i], rows[i].user)|
  }

  lemma {:induction false} AtRank(rows: Table, i: nat)
    requires i < |rows|
    ensures Rank(rows, i) < |OfUser(rows, rows[i].user)| && OfUser(rows, rows[i].user)[Rank(rows, i)] == rows[i]
  {
    var n := |rows| - 1;
    if i < n {
      assert rows[..n][..i] == rows[..i];
      AtRank(rows[..n], i);
    }
  }

  lemma {:induction false} RankAscends(rows: Table, i: nat, j: nat)
    requires i < j < |rows| && rows[i].user == rows[j].user
    ensures Rank(rows, i) < Rank(rows, j)
  {
    assert rows[..j][..i] == rows[..i];
    AtRank(rows[..j], i);
  }

  lemma {:induction false} OfUserUpdate(rows: Table, i: nat, row: PqcKey, user: string)
    requires i < |rows| && row.user == rows[i].user
    ensures row.user != user ==> OfUser(rows[i := row], user) == OfUser(rows, user)
    ensures row.user == user ==> Rank(rows, i) < |OfUser(rows, user)|
                                 && OfUser(rows[i := row], user) == OfUser(rows, user)[Rank(rows, i) := row]
  {
    var n := |rows| - 1;
    if i < n {
      assert rows[i := row][..n] == rows[..n][i := row];
      assert rows[..n][..i] == rows[..i];
      OfUserUpdate(rows[..n], i, row, user);
    } else {
      assert rows[i := row][..n] == rows[..n];
    }
  }

  lemma {:induction false} HasRow(rows: Table, user: string, k: nat) returns (i: nat)
    requires k < |OfUser(rows, user)|
    ensures i < |rows| && rows[i].user == user && rows[i] == OfUser(rows, user)[k] && Rank(rows, i) == k
  {
    var n := |rows| - 1;
    if k < |OfUser(rows[..n], user)| {
      i := HasRow(rows[..n], user, k);
      assert rows[..n][..i] == rows[..i];
    } else {
      i := n;
    }
  }

  /** The active row of a user is the newest; there is none only before the first. */
  lemma ActiveIsNewest(c: Crypto, masterKey: Bytes, rows: Table, user: string)
    requires Valid(c, masterKey, rows)
    ensures var keys := OfUser(rows, user);
            match FindActive(rows, user)
            case None => keys == []
            case Some(i) => keys != [] && Rank(rows, i) == |keys| - 1 && rows[i] == keys[|keys| - 1]
  {
    var keys := OfUser(rows, user);
    assert Versioned(keys);
    match FindActive(rows, user)
    case None =>
      if keys != [] {
        var i := HasRow(rows, user, |keys| - 1);
      }
    case Some(i) =>
      AtRank(rows, i);
  }

  lemma NewKeyPaired(c: Crypto, masterKey: Bytes, user: string, version: nat, seed: Bytes, nonce: Bytes)
    requires c.AeadLaw() && c.Base64Law()
    ensures Paired(c, masterKey, NewKey(c, masterKey, user, version, seed, nonce))
  {
    var (publicKey, secretKey) := c.kemKeyPair(seed);
    var sealedKey := c.aeadEncrypt(Aes256Gcm, masterKey, nonce, secretKey);
    assert c.AeadOpens(Aes256Gcm, masterKey, nonce, secretKey);
    assert c.Base64Opens(publicKey) && c.Base64Opens(nonce) && c.Base64Opens(sealedKey);
    assert PairedBy(c, masterKey, NewKey(c, masterKey, user, version, seed, nonce), seed);
  }

  lemma RetiredPaired(c: Crypto, masterKey: Bytes, row: PqcKey, row': PqcKey)
    requires Paired(c, masterKey, row) && SameKey(row, row')
    ensures Paired(c, masterKey, row')
  {
    var seed :| PairedBy(c, masterKey, row, seed);
    assert PairedBy(c, masterKey, row', seed);
  }

  /** What one generation does to the keys of one user. */
  lemma GenerateFor(c: Crypto, masterKey: Bytes, rows: Table, g: Generation, user: string)
    requires Valid(c, masterKey, rows)
    ensures var keys := OfUser(rows, user);
            var keys' := OfUser(Generate(c, masterKey, rows, g.user, g.seed, g.nonce, g.now), user);
            if user == g.user then |keys'| == |keys| + 1 && Versioned(keys') else keys' == keys
  {
    ActiveIsNewest(c, masterKey, rows, g.user);
    assert Versioned(OfUser(rows, g.user));
    var active := FindActive(rows, g.user);
    match active
    case None =>
      OfUserAppend(rows, NewKey(c, masterKey, g.user, 1, g.seed, g.nonce), user);
    case Some(i) =>
      var kept := Retire(rows, i, g.now);
      OfUserAppend(kept, NewKey(c, masterKey, g.user, rows[i].version + 1, g.seed, g.nonce), user);
      OfUserUpdate(rows, i, kept[i], user);
  }

  lemma GeneratePaired(c: Crypto, masterKey: Bytes, rows: Table, g: Generation)
    requires c.AeadLaw() && c.Base64Law() && Valid(c, masterKey, rows)
    ensures var rows' := Generate(c, masterKey, rows, g.user, g.seed, g.nonce, g.now);
            Later(rows, rows') && forall i :: 0 <= i < |rows'| ==> Paired(c, masterKey, rows'[i])
  {
    var rows' := Generate(c, masterKey, rows, g.user, g.seed, g.nonce, g.now);
    NewKeyPaired(c, masterKey, g.user, rows'[|rows|].version, g.seed, g.nonce);
    forall i | 0 <= i < |rows'| ensures Paired(c, masterKey, rows'[i]) {
      if i < |rows| {
        RetiredPaired(c, masterKey, rows[i], rows'[i]);
      }
    }
  }

  /** generate_keypair keeps exactly one active key per user, numbers the versions
      1..n, adds one row for its user and touches no key material. */
  lemma GenerateOk(c: Crypto, masterKey: Bytes, rows: Table, g: Generation)
    requires c.AeadLaw() && c.Base64Law() && Valid(c, masterKey, rows)
    ensures var rows' := Generate(c, masterKey, rows, g.user, g.seed, g.nonce, g.now);
            && Valid(c, masterKey, rows') && Later(rows, rows')
            && |OfUser(rows', g.user)| == |OfUser(rows, g.user)| + 1
            && (forall other :: other != g.user ==> OfUser(rows', other) == OfUser(rows, other))
  {
    var rows' := Generate(c, masterKey, rows, g.user, g.seed, g.nonce, g.now);
    GeneratePaired(c, masterKey, rows, g);
    GenerateFor(c, masterKey, rows, g, g.user);
    forall user ensures Versioned(OfUser(rows', user))
        && (user != g.user ==> OfUser(rows', user) == OfUser(rows, user)) {
      GenerateFor(c, masterKey, rows, g, user);
    }
  }

  /** What happens to the rows that were there: the user's active one is retired at this time, all others
      stay exactly as they were; the new row is the user's, one version on. */
  lemma GenerateRetires(c: Crypto, masterKey: Bytes, rows: Table, g: Generation)
    requires Valid(c, masterKey, rows)
    ensures var rows' := Generate(c, masterKey, rows, g.user, g.seed, g.nonce, g.now);
            var n := |OfUser(rows, g.user)|;
            && |rows'| == |rows| + 1
            && (forall i :: 0 <= i < |rows| ==>
                  rows'[i] == if rows[i].user == g.user && rows[i].active
                              then rows[i].(active := false, retiredAt := Some(g.now)) else rows[i])
            && rows'[|rows|].user == g.user && rows'[|rows|].version == n + 1 && rows'[|rows|].active
            && rows'[|rows|].retiredAt == None
  {
    ActiveIsNewest(c, masterKey, rows, g.user);
    assert Versioned(OfUser(rows, g.user));
    if OfUser(rows, g.user) != [] {
      ExactlyOneActive(c, masterKey, rows, g.user);
    }
  }

  /** A generated key is the one that is handed out from then on. */
  lemma GeneratedActive(c: Crypto, masterKey: Bytes, rows: Table, g: Generation)
    requires c.AeadLaw() && c.Base64Law() && Valid(c, masterKey, rows)
    ensures var now := GetActive(c, Generate(c, masterKey, rows, g.user, g.seed, g.nonce, g.now), g.user);
            now.Ok? && now.value.publicKey == c.kemKeyPair(g.seed).0
  {
    var rows' := Generate(c, masterKey, rows, g.user, g.seed, g.nonce, g.now);
    GenerateOk(c, masterKey, rows, g);
    ActiveIsNewest(c, masterKey, rows', g.user);
    assert rows' == rows'[..|rows|] + [rows'[|rows|]];
    OfUserAppend(rows'[..|rows|], rows'[|rows|], g.user);
    assert c.Base64Opens(c.kemKeyPair(g.seed).0);
  }

  /** A version names one row, so its secret key is the one whose public half was
      handed out under that version. */
  lemma VersionUnique(c: Crypto, masterKey: Bytes, rows: Table, i: nat)
    requires Valid(c, masterKey, rows) && i < |rows|
    ensures FindVersion(rows, rows[i].user, rows[i].version) == Some(i)
  {
    var user := rows[i].user;
    var found := FindVersion(rows, user, rows[i].version);
    var j := found.value;
    AtRank(rows, i);
    AtRank(rows, j);
    assert Versioned(OfUser(rows, user));
    if i < j {
      RankAscends(rows, i, j);
    } else if j < i {
      RankAscends(rows, j, i);
    }
  }

  /** Once a user has keys, exactly one row of the table is that user's active one. */
  lemma ExactlyOneActive(c: Crypto, masterKey: Bytes, rows: Table, user: string)
    requires Valid(c, masterKey, rows) && OfUser(rows, user) != []
    ensures var i := FindActive(rows, user);
            i.Some? && forall j :: 0 <= j < |rows| && rows[j].user == user && rows[j].active ==> j == i.value
  {
    ActiveIsNewest(c, masterKey, rows, user);
    var i := FindActive(rows, user).value;
    assert Versioned(OfUser(rows, user));
    forall j | 0 <= j < |rows| && rows[j].user == user && rows[j].active ensures j == i {
      AtRank(rows, j);
      if i < j {
        RankAscends(rows, i, j);
      } else if j < i {
        RankAscends(rows, j, i);
      }
    }
  }

  /** Any sequence of key generations. */
  datatype Generation = Generation(user: string, seed: Bytes, nonce: Bytes, now: int)

  function Rotations(c: Crypto, masterKey: Bytes, rows: Table, gs: seq<Generation>): Table {
    if gs == [] then rows
    else
      var g := gs[|gs| - 1];
      Generate(c, masterKey, Rotations(c, masterKey, rows, gs[..|gs| - 1]), g.user, g.seed, g.nonce, g.now)
  }

  lemma {:induction false} RotationsOk(c: Crypto, masterKey: Bytes, rows: Table, gs: seq<Generation>)
    requires c.AeadLaw() && c.Base64Law() && Valid(c, masterKey, rows)
    ensures Valid(c, masterKey, Rotations(c, masterKey, rows, gs)) && Later(rows, Rotations(c, masterKey, rows, gs))
    ensures forall user :: (forall g <- gs :: g.user != user) ==>
              OfUser(Rotations(c, masterKey, rows, gs), user) == OfUser(rows, user)
  {
    if gs != [] {
      var n := |gs| - 1;
      RotationsOk(c, masterKey, rows, gs[..n]);
      var g := gs[n];
      GenerateOk(c, masterKey, Rotations(c, masterKey, rows, gs[..n]), g);
    }
  }

  /** Encapsulating to a key and decapsulating later, under the version recorded
      then, gives the same secret, whatever was rotated in between. */
  lemma DecapsulateLater(c: Crypto, masterKey: Bytes, rows: Table, i: nat, gs: seq<Generation>, coins: Bytes)
    requires c.Lawful() && Valid(c, masterKey, rows) && i < |rows|
    requires c.unbase64(rows[i].publicKey).Some?
    ensures var sent := c.kemEncapsulate(c.unbase64(rows[i].publicKey).value, coins);
            Decapsulate(c, masterKey, Rotations(c, masterKey, rows, gs), sent.0, rows[i].user, rows[i].version) ==
                Ok(sent.1)
  {
    var rows' := Rotations(c, masterKey, rows, gs);
    RotationsOk(c, masterKey, rows, gs);
    assert SameKey(rows[i], rows'[i]);
    VersionUnique(c, masterKey, rows', i);
    var seed :| PairedBy(c, masterKey, rows'[i], seed);
    assert c.KemAgrees(seed, coins);
  }

  /** MLKEMService over its table. */
  class MLKEMService {
    const crypto: Crypto
    const masterKey: Bytes
    var rows: Table

    constructor (crypto: Crypto, masterKey: Bytes)
      ensures this.crypto == crypto && this.masterKey == masterKey && rows == []
      ensures Valid(crypto, masterKey, rows)
    {
      this.crypto, this.masterKey := crypto, masterKey;
      rows := [];
    }

    /** generate_keypair: flip the active row, then insert the next version. */
    method GenerateKeypair(user: string, seed: Bytes, nonce: Bytes, now: int)
      modifies this
      ensures rows == Generate(crypto, masterKey, old(rows), user, seed, nonce, now)
    {
      var active := FindActive(rows, user);
      var version := 1;
      if active.Some? {
        version := rows[active.value].version + 1;
        rows := rows[active.value := rows[active.value].(active := false, retiredAt := Some(now))];
      }
      rows := rows + [NewKey(crypto, masterKey, user, version, seed, nonce)];
    }
  }
}
