/** Nonces, the authenticated cipher as an abstract pair of functions, and the block cipher object
    that a connection keeps. */
module Ciphers {
  import opened Bytes
  import opened Arithmetic

  const NONCE_SIZE: nat := 24
  const OVERHEAD: nat := 16
  const HINT_PREFIX: nat := 16
  const HINT_SUFFIX: nat := 4

  // ---------------------------------------------------------------------------------------------
  // Big-endian numbers
  // ---------------------------------------------------------------------------------------------

  function Power256(n: nat): (p: nat)
    ensures p > 0
  {
    if n == 0 then 1 else 256 * Power256(n - 1)
  }

  /** The number that the bytes spell, most significant first. */
  function Value(s: bytes): nat {
    if s == [] then 0 else Value(s[..|s| - 1]) * 256 + s[|s| - 1]
  }

  /** The lowest `n` bytes of a number, most significant first. */
  function BigEndian(v: nat, n: nat): (s: bytes)
    ensures |s| == n
  {
    if n == 0 then [] else BigEndian(v / 256, n - 1) + [v % 256]
  }

  lemma {:induction false} ValueBound(s: bytes)
    ensures Value(s) < Power256(|s|)
  {
    if s != [] {
      ValueBound(s[..|s| - 1]);
    }
  }

  /** Reading undoes writing for every number that fits. */
  lemma {:induction false} BigEndianRoundTrip(v: nat, n: nat)
    requires v < Power256(n)
    ensures Value(BigEndian(v, n)) == v
    decreases n
  {
    if n > 0 {
      var s := BigEndian(v, n);
      assert s[..n - 1] == BigEndian(v / 256, n - 1);
      BigEndianRoundTrip(v / 256, n - 1);
    }
  }

  /** Different byte strings of one length spell different numbers. */
  lemma {:induction false} ValueInjective(s: bytes, t: bytes)
    requires |s| == |t| && Value(s) == Value(t)
    ensures s == t
  {
    if s != [] {
      var s', t' := s[..|s| - 1], t[..|t| - 1];
      ValueInjective(s', t');
      assert s == s' + [s[|s| - 1]] && t == t' + [t[|t| - 1]];
    }
  }

  // ---------------------------------------------------------------------------------------------
  // Nonces
  // ---------------------------------------------------------------------------------------------

  /** The next nonce: the last byte goes up, and a byte that overflows carries. */
  function Increased(nonce: bytes): (s: bytes)
    ensures |s| == |nonce|
  {
    if nonce == [] then []
    else
      var init, last := nonce[..|nonce| - 1], nonce[|nonce| - 1];
      if last < 255 then init + [last + 1] else Increased(init) + [0]
  }

  /** Increasing adds one, modulo the number of nonces of that length. */
  lemma {:induction false} IncreasedAddsOne(nonce: bytes)
    ensures Value(Increased(nonce)) == (Value(nonce) + 1) % Power256(|nonce|)
  {
    if nonce != [] {
      var init, last := nonce[..|nonce| - 1], nonce[|nonce| - 1];
      var p := Power256(|init|);
      ValueBound(init);
      if last < 255 {
        assert Increased(nonce)[..|init|] == init;
        assert Value(nonce) + 1 <= 256 * p - 1;
        DivModUnique(Value(nonce) + 1, 256 * p, 0, Value(nonce) + 1);
      } else {
        IncreasedAddsOne(init);
        assert Increased(nonce)[..|init|] == Increased(init);
        CarryModulus(Value(init) + 1, p);
      }
    }
  }

  lemma CarryModulus(x: nat, p: nat)
    requires 0 < x <= p
    ensures (256 * x) % (256 * p) == 256 * (x % p)
  {
    if x < p {
      DivModUnique(x, p, 0, x);
      DivModUnique(256 * x, 256 * p, 0, 256 * x);
    } else {
      DivModUnique(x, p, 1, 0);
      DivModUnique(256 * x, 256 * p, 1, 0);
    }
  }

  /** The nonce of message `k` when message 0 has nonce `base`. */
  function NonceOf(base: bytes, k: nat): (s: bytes)
    ensures |s| == |base|
  {
    if k == 0 then base else Increased(NonceOf(base, k - 1))
  }

  lemma {:induction false} NonceOfValue(base: bytes, k: nat)
    ensures Value(NonceOf(base, k)) == (Value(base) + k) % Power256(|base|)
    decreases k
  {
    var p := Power256(|base|);
    if k == 0 {
      ValueBound(base);
      DivModUnique(Value(base), p, 0, Value(base));
    } else {
      NonceOfValue(base, k - 1);
      IncreasedAddsOne(NonceOf(base, k - 1));
      var x := Value(base) + k - 1;
      NextRemainder(x, p);
    }
  }

  lemma NextRemainder(x: nat, p: nat)
    requires p > 0
    ensures (x % p + 1) % p == (x + 1) % p
  {
    var q, r := x / p, x % p;
    assert x + 1 == q * p + (r + 1) by { assert x == q * p + r; }
    if r + 1 < p {
      DivModUnique(x + 1, p, q, r + 1);
      DivModUnique(r + 1, p, 0, r + 1);
    } else {
      assert (q + 1) * p == q * p + p;
      DivModUnique(x + 1, p, q + 1, 0);
      DivModUnique(r + 1, p, 1, 0);
    }
  }

  /** No nonce repeats within as many messages as there are nonces. */
  lemma NoncesDistinct(base: bytes, i: nat, j: nat)
    requires i < j < i + Power256(|base|)
    ensures NonceOf(base, i) != NonceOf(base, j)
  {
    if NonceOf(base, i) == NonceOf(base, j) {
      var p := Power256(|base|);
      NonceOfValue(base, i);
      NonceOfValue(base, j);
      SameRemainder(Value(base) + i, Value(base) + j, p);
      assert false;
    }
  }

  lemma SameRemainder(x: nat, y: nat, p: nat)
    requires p > 0 && x < y < x + p
    ensures x % p != y % p
  {
    var q, r := x / p, x % p;
    var d := y - x;
    assert x == q * p + r;
    if r + d < p {
      DivModUnique(y, p, q, r + d);
    } else {
      assert (q + 1) * p == q * p + p;
      DivModUnique(y, p, q + 1, r + d - p);
    }
  }

  /** The loop over the nonce from its last byte, which stops at the first that does not overflow. */
  method IncreaseNonce(nonce: array<byte>)
    modifies nonce
    ensures nonce[..] == Increased(old(nonce[..]))
  {
    ghost var s := nonce[..];
    var j := nonce.Length;
    assert s[..j] == s && Increased(s) + [] == Increased(s);
    ghost var zeros: bytes := [];
    while j > 0
      invariant 0 <= j <= nonce.Length && nonce[..j] == s[..j] && nonce[j..] == zeros
      invariant Increased(s) == Increased(s[..j]) + zeros
    {
      j := j - 1;
      ghost var init := s[..j];
      assert s[..j + 1][..j] == init && s[..j + 1][j] == s[j];
      var was: int := nonce[j];
      var next: byte := (was + 1) % 256;
      nonce[j] := next;
      if next != 0 {
        assert nonce[..] == init + [next] + zeros;
        return;
      }
      assert nonce[j..] == [0] + zeros;
      assert (Increased(init) + [0]) + zeros == Increased(init) + ([0] + zeros);
      zeros := [0] + zeros;
    }
    assert nonce[..] == zeros;
  }

  // ---------------------------------------------------------------------------------------------
  // The authenticated cipher
  // ---------------------------------------------------------------------------------------------

  /** Sealing and opening, both given a key, a nonce and a text. */
  datatype Aead = Aead(seal: (bytes, bytes, bytes) -> bytes, open: (bytes, bytes, bytes) -> Option<bytes>)

  /** All that is assumed of the cipher: sealing adds the tag, and opening undoes sealing. */
  ghost predicate Correct(aead: Aead) {
    forall key, nonce, text ::
      && |aead.seal(key, nonce, text)| == |text| + OVERHEAD
      && aead.open(key, nonce, aead.seal(key, nonce, text)) == Some(text)
  }

  /** A cipher without any secrecy, which shows that the assumption can be met. */
  function Plain(): Aead {
    var tag := seq(OVERHEAD, _ => 0);
    Aead((key, nonce, text) => text + tag,
         (key, nonce, sealed) =>
           if |sealed| >= OVERHEAD && sealed[|sealed| - OVERHEAD..] == tag then Some(sealed[..|sealed| - OVERHEAD])
           else None)
  }

  lemma PlainIsCorrect()
    ensures Correct(Plain())
  {
    forall key: bytes, nonce: bytes, text: bytes
      ensures |Plain().seal(key, nonce, text)| == |text| + OVERHEAD
      ensures Plain().open(key, nonce, Plain().seal(key, nonce, text)) == Some(text)
    {
      var tag: bytes := seq(OVERHEAD, _ => 0);
      assert (text + tag)[|text|..] == tag && (text + tag)[..|text|] == text;
    }
  }

  /** What a cipher object holds; without an implicit nonce `nonce` is empty. */
  datatype Cipher = Cipher(key: bytes, implicit: bool, nonce: bytes, user: bytes)

  type Hash = bytes -> bytes

  /** The last bytes of the nonce become a hash of the user name and the first bytes. */
  function WithHint(hash: Hash, user: bytes, nonce: bytes): bytes
    requires |nonce| >= HINT_PREFIX + HINT_SUFFIX && |hash(user + nonce[..HINT_PREFIX])| >= HINT_SUFFIX
  {
    if user == [] then nonce
    else nonce[..|nonce| - HINT_SUFFIX] + hash(user + nonce[..HINT_PREFIX])[..HINT_SUFFIX]
  }

  predicate MatchesHint(hash: Hash, user: bytes, nonce: bytes)
    requires |nonce| >= HINT_PREFIX + HINT_SUFFIX && |hash(user + nonce[..HINT_PREFIX])| >= HINT_SUFFIX
  {
    hash(user + nonce[..HINT_PREFIX])[..HINT_SUFFIX] == nonce[|nonce| - HINT_SUFFIX..]
  }

  ghost predicate LongEnough(hash: Hash) {
    forall s :: |hash(s)| >= HINT_SUFFIX
  }

  /** A nonce with a user's hint passes the check for that user, whatever nonce it was made from, for
      the bytes that the hash reads are not the bytes that it replaces; without a user it stays as it is. */
  lemma HintMatches(hash: Hash, user: bytes, nonce: bytes)
    requires LongEnough(hash) && |nonce| >= HINT_PREFIX + HINT_SUFFIX
    ensures user != [] ==> MatchesHint(hash, user, WithHint(hash, user, nonce))
    ensures var hinted, k := WithHint(hash, user, nonce), |nonce| - 4;
      && |hinted| == |nonce| && hinted[..k] == nonce[..k]
      && hinted[k..] == if user == [] then nonce[k..] else hash(user + nonce[..16])[..4]
  {
    var hinted := WithHint(hash, user, nonce);
    assert hinted[..HINT_PREFIX] == nonce[..HINT_PREFIX];
    assert user != [] ==> hinted[|nonce| - HINT_SUFFIX..] == hash(user + nonce[..HINT_PREFIX])[..HINT_SUFFIX];
  }

  /** Encrypting with `random` as the new random nonce, should one be needed. */
  function Encrypted(aead: Aead, hash: Hash, c: Cipher, random: bytes, text: bytes): (Cipher, bytes)
    requires |random| == NONCE_SIZE && |hash(c.user + random[..HINT_PREFIX])| >= HINT_SUFFIX
  {
    if c.implicit && c.nonce != [] then
      var nonce := Increased(c.nonce);
      (c.(nonce := nonce), aead.seal(c.key, nonce, text))
    else
      var nonce := WithHint(hash, c.user, random);
      (if c.implicit then c.(nonce := nonce) else c, nonce + aead.seal(c.key, nonce, text))
  }

  /** A failed decryption has used up a nonce all the same. */
  function Decrypted(aead: Aead, c: Cipher, text: bytes): (Cipher, Option<bytes>) {
    if c.implicit && c.nonce != [] then
      var nonce := Increased(c.nonce);
      (c.(nonce := nonce), aead.open(c.key, nonce, text))
    else if |text| < NONCE_SIZE then (c, None)
    else
      var nonce := text[..NONCE_SIZE];
      (if c.implicit then c.(nonce := nonce) else c, aead.open(c.key, nonce, text[NONCE_SIZE..]))
  }

  /** Encrypting and decrypting with a nonce that the caller chooses.  A cipher with an implicit nonce
      refuses both, and so does a nonce of the wrong size. */
  function SealedWith(aead: Aead, c: Cipher, nonce: bytes, text: bytes): Option<bytes> {
    if c.implicit || |nonce| != NONCE_SIZE then None else Some(aead.seal(c.key, nonce, text))
  }

  function OpenedWith(aead: Aead, c: Cipher, nonce: bytes, text: bytes): Option<bytes> {
    if c.implicit || |nonce| != NONCE_SIZE then None else aead.open(c.key, nonce, text)
  }

  /** What one cipher seals under a chosen nonce, any cipher with its key opens under that nonce, and
      neither changes; it is refused if and only if the opening is refused too. */
  lemma ChosenNonceRoundTrip(aead: Aead, a: Cipher, b: Cipher, nonce: bytes, text: bytes)
    requires Correct(aead) && a.key == b.key && a.implicit == b.implicit
    ensures var sealed := SealedWith(aead, a, nonce, text);
      && (sealed.Some? ==> |sealed.value| == |text| + OVERHEAD && OpenedWith(aead, b, nonce, sealed.value) == Some(text))
      && (sealed.None? <==> forall any :: OpenedWith(aead, b, nonce, any).None?)
  {
    var sealed := SealedWith(aead, a, nonce, text);
    if sealed.Some? {
      assert OpenedWith(aead, b, nonce, sealed.value).Some?;
    }
  }

  /** Two ciphers that will use the same nonces from now on. */
  predicate Lockstep(a: Cipher, b: Cipher) {
    a.key == b.key && a.implicit == b.implicit && a.nonce == b.nonce
  }

  /** One message keeps sender and receiver in lockstep, and is received as it was sent. */
  lemma MessageKeepsLockstep(aead: Aead, hash: Hash, a: Cipher, b: Cipher, random: bytes, text: bytes)
    requires Correct(aead) && LongEnough(hash) && Lockstep(a, b) && |random| == NONCE_SIZE
    ensures var (a', sealed) := Encrypted(aead, hash, a, random, text); var (b', received) := Decrypted(aead, b, sealed);
      && received == Some(text) && Lockstep(a', b')
      && |sealed| == |text| + OVERHEAD + (if a.implicit && a.nonce != [] then 0 else NONCE_SIZE)
      && (a.implicit ==> a'.nonce != [])
  {
    if !(a.implicit && a.nonce != []) {
      var nonce := WithHint(hash, a.user, random);
      var sealed := aead.seal(a.key, nonce, text);
      assert (nonce + sealed)[..NONCE_SIZE] == nonce && (nonce + sealed)[NONCE_SIZE..] == sealed;
    }
  }

  class BlockCipher {
    const key: bytes
    var implicit: bool
    var nonce: array<byte>
    var user: bytes

    ghost function View(): Cipher
      reads this, nonce
    {
      Cipher(key, implicit, nonce[..], user)
    }

    constructor (key: bytes)
      ensures fresh(nonce) && View() == Cipher(key, false, [], [])
    {
      this.key := key;
      implicit, user := false, [];
      nonce := new byte[0];
      new;
      assert nonce[..] == [];
    }

    method SetUser(user: bytes)
      modifies this`user
      ensures View() == old(View()).(user := user)
    {
      this.user := user;
    }

    method SetImplicitNonceMode(enable: bool)
      modifies this`implicit, this`nonce
      ensures View() == old(View()).(implicit := enable, nonce := if enable then old(View()).nonce else [])
      ensures nonce == old(nonce) || fresh(nonce)
    {
      implicit := enable;
      if !enable {
        nonce := new byte[0];
        assert nonce[..] == [];
      }
    }

    /** A copy that shares nothing with the original. */
    method Clone() returns (c: BlockCipher)
      ensures fresh(c) && fresh(c.nonce) && c.View() == View()
    {
      c := new BlockCipher(key);
      c.implicit, c.user := implicit, user;
      var copy := new byte[nonce.Length](i requires 0 <= i < nonce.Length reads this, nonce => nonce[i]);
      c.nonce := copy;
      assert copy[..] == nonce[..];
    }

    method Encrypt(aead: Aead, hash: Hash, random: bytes, text: bytes) returns (sealed: bytes)
      requires |random| == NONCE_SIZE && |hash(user + random[..HINT_PREFIX])| >= HINT_SUFFIX
      modifies this`nonce, nonce
      ensures (View(), sealed) == Encrypted(aead, hash, old(View()), random, text)
      ensures nonce == old(nonce) || fresh(nonce)
    {
      if implicit && nonce.Length != 0 {
        IncreaseNonce(nonce);
        sealed := aead.seal(key, nonce[..], text);
      } else {
        var n := WithHint(hash, user, random);
        if implicit {
          nonce := new byte[|n|](i requires 0 <= i < |n| => n[i]);
          assert nonce[..] == n;
        }
        sealed := n + aead.seal(key, n, text);
      }
    }

    method EncryptWithNonce(aead: Aead, text: bytes, n: bytes) returns (sealed: Option<bytes>)
      ensures sealed == SealedWith(aead, View(), n, text)
    {
      if implicit || |n| != NONCE_SIZE {
        return None;
      }
      sealed := Some(aead.seal(key, n, text));
    }

    method DecryptWithNonce(aead: Aead, text: bytes, n: bytes) returns (plain: Option<bytes>)
      ensures plain == OpenedWith(aead, View(), n, text)
    {
      if implicit || |n| != NONCE_SIZE {
        return None;
      }
      plain := aead.open(key, n, text);
    }

    method Decrypt(aead: Aead, text: bytes) returns (plain: Option<bytes>)
      modifies this`nonce, nonce
      ensures (View(), plain) == Decrypted(aead, old(View()), text)
      ensures nonce == old(nonce) || fresh(nonce)
    {
      if implicit && nonce.Length != 0 {
        IncreaseNonce(nonce);
        plain := aead.open(key, nonce[..], text);
      } else if |text| < NONCE_SIZE {
        plain := None;
      } else {
        var n := text[..NONCE_SIZE];
        if implicit {
          nonce := new byte[NONCE_SIZE](i requires 0 <= i < NONCE_SIZE => n[i]);
          assert nonce[..] == n;
        }
        plain := aead.open(key, n, text[NONCE_SIZE..]);
      }
    }
  }

  /** The cipher that a server answers with: a clone of its receiving cipher whose implicit nonce was
      cleared, so that it starts with a nonce of its own. */
  method SendCipherFromRecv(recv: BlockCipher) returns (send: BlockCipher)
    ensures fresh(send) && fresh(send.nonce)
    ensures send.View() == recv.View().(implicit := true, nonce := [])
  {
    send := recv.Clone();
    send.SetImplicitNonceMode(false);
    send.SetImplicitNonceMode(true);
  }
}
