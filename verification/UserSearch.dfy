/** How a server finds the user who sent the first packet of a session: first among the users whose
    hint is in the nonce, then, unless hints are mandatory, among all of them. */
module UserSearch {
  import opened Bytes
  import opened Ciphers

  /** `password` is the decoded hashed password, or none if it is not valid hexadecimal. */
  datatype User = User(name: bytes, password: Option<bytes>, plain: bytes)

  /** The outside world: key derivation, the cipher, and the hash. */
  datatype World = World(keysOf: bytes -> seq<bytes>, hashPassword: (bytes, bytes) -> bytes, aead: Aead, hash: Hash)

  /** The password that keys are derived from. */
  function Secret(w: World, u: User): Option<bytes> {
    if u.password.None? then None
    else if u.password.value == [] then Some(w.hashPassword(u.plain, u.name))
    else u.password
  }

  /** The key is one of the user's: derived from the hashed password if there is one, else from the plain
      password and the name, and there is none if the hashed password cannot be decoded. */
  predicate HasKey(w: World, u: User, key: bytes) {
    match u.password
    case None => false
    case Some(p) => key in w.keysOf(if p == [] then w.hashPassword(u.plain, u.name) else p)
  }

  function Open(w: World, key: bytes, header: bytes): Option<bytes>
    requires |header| >= NONCE_SIZE
  {
    w.aead.open(key, header[..NONCE_SIZE], header[NONCE_SIZE..])
  }

  /** Some key of the user opens the header. */
  ghost predicate CanOpen(w: World, u: User, header: bytes)
    requires |header| >= NONCE_SIZE
  {
    exists k :: HasKey(w, u, k) && Open(w, k, header).Some?
  }

  predicate Hinted(w: World, u: User, header: bytes)
    requires |header| >= NONCE_SIZE && |w.hash(u.name + header[..NONCE_SIZE][..HINT_PREFIX])| >= HINT_SUFFIX
  {
    MatchesHint(w.hash, u.name, header[..NONCE_SIZE])
  }

  datatype Match = Match(user: User, key: bytes, plain: bytes)

  /** The match is genuine: a registered user's key opens the header to this text. */
  ghost predicate Genuine(w: World, users: seq<User>, header: bytes, m: Match)
    requires |header| >= NONCE_SIZE
  {
    m.user in users && HasKey(w, m.user, m.key) && Open(w, m.key, header) == Some(m.plain)
  }

  ghost predicate NoKeyBefore(w: World, header: bytes, keys: seq<bytes>, i: nat)
    requires |header| >= NONCE_SIZE && i <= |keys|
  {
    forall j :: 0 <= j < i ==> Open(w, keys[j], header).None?
  }

  ghost predicate NobodyBefore(w: World, header: bytes, users: seq<User>, i: nat)
    requires |header| >= NONCE_SIZE && i <= |users|
  {
    forall j :: 0 <= j < i ==> !CanOpen(w, users[j], header)
  }

  /** Tries the keys one after another. */
  method SelectDecrypt(w: World, header: bytes, keys: seq<bytes>) returns (found: Option<(bytes, bytes)>)
    requires |header| >= NONCE_SIZE
    ensures found.Some? ==> found.value.0 in keys && Open(w, found.value.0, header) == Some(found.value.1)
    ensures found.Some? ==> exists i :: 0 <= i < |keys| && keys[i] == found.value.0 && NoKeyBefore(w, header, keys, i)
    ensures found.None? ==> forall k :: k in keys ==> Open(w, k, header).None?
  {
    for i := 0 to |keys|
      invariant NoKeyBefore(w, header, keys, i)
    {
      var plain := Open(w, keys[i], header);
      if plain.Some? {
        return Some((keys[i], plain.value));
      }
    }
    return None;
  }

  /** Tries the users one after another. */
  method TryUsers(w: World, users: seq<User>, header: bytes) returns (found: Option<Match>)
    requires |header| >= NONCE_SIZE
    ensures found.Some? ==> Genuine(w, users, header, found.value)
    ensures found.Some? ==> exists i :: 0 <= i < |users| && users[i] == found.value.user && NobodyBefore(w, header, users, i)
    ensures found.None? ==> forall u :: u in users ==> !CanOpen(w, u, header)
  {
    for i := 0 to |users|
      invariant NobodyBefore(w, header, users, i)
    {
      var secret := Secret(w, users[i]);
      if secret.Some? {
        var r := SelectDecrypt(w, header, w.keysOf(secret.value));
        if r.Some? {
          return Some(Match(users[i], r.value.0, r.value.1));
        }
      }
      assert forall k :: HasKey(w, users[i], k) ==> secret.Some? && k in w.keysOf(secret.value);
    }
    return None;
  }

  /** The users whose hint is in the nonce. */
  method HintedUsers(w: World, users: seq<User>, header: bytes) returns (hinted: seq<User>)
    requires |header| >= NONCE_SIZE && LongEnough(w.hash) && forall u :: u in users ==> u.name != []
    ensures forall u :: u in hinted <==> u in users && Hinted(w, u, header)
  {
    hinted := [];
    for i := 0 to |users|
      invariant forall u :: u in hinted <==> u in users[..i] && Hinted(w, u, header)
    {
      assert users[..i + 1] == users[..i] + [users[i]];
      if Hinted(w, users[i], header) {
        hinted := hinted + [users[i]];
      }
    }
    assert users[..|users|] == users;
  }

  /** The search.  Whoever it finds is genuine.  With optional hints it succeeds exactly when a plain
      scan of all users would; with mandatory hints, exactly when a scan of the hinted users would. */
  method FindUser(w: World, users: seq<User>, header: bytes, mandatory: bool) returns (found: Option<Match>)
    requires |header| >= NONCE_SIZE && LongEnough(w.hash) && forall u :: u in users ==> u.name != []
    ensures found.Some? ==> Genuine(w, users, header, found.value)
    ensures !mandatory ==> (found.Some? <==> exists u :: u in users && CanOpen(w, u, header))
    ensures mandatory ==> (found.Some? <==> exists u :: u in users && Hinted(w, u, header) && CanOpen(w, u, header))
    ensures (exists u :: u in users && Hinted(w, u, header) && CanOpen(w, u, header)) ==>
      found.Some? && Hinted(w, found.value.user, header)
  {
    var hinted := HintedUsers(w, users, header);
    found := TryUsers(w, hinted, header);
    if found.None? && !mandatory {
      found := TryUsers(w, users, header);
    }
    if found.Some? {
      assert CanOpen(w, found.value.user, header);
    }
  }

  /** An honest client's packet satisfies what either kind of search asks for: its user is registered,
      hinted whatever random nonce or nonce pattern it started from, and has a key that opens it. */
  lemma HonestClientFound(w: World, users: seq<User>, u: User, key: bytes, random: bytes, text: bytes)
    requires Correct(w.aead) && LongEnough(w.hash) && |random| == NONCE_SIZE
    requires u in users && u.name != [] && HasKey(w, u, key)
    ensures var header := Encrypted(w.aead, w.hash, Cipher(key, false, [], u.name), random, text).1;
      |header| >= NONCE_SIZE && Hinted(w, u, header) && CanOpen(w, u, header)
  {
    var nonce := WithHint(w.hash, u.name, random);
    HintMatches(w.hash, u.name, random);
    var sealed := w.aead.seal(key, nonce, text);
    assert (nonce + sealed)[..NONCE_SIZE] == nonce && (nonce + sealed)[NONCE_SIZE..] == sealed;
    assert Open(w, key, nonce + sealed) == Some(text);
  }
}
