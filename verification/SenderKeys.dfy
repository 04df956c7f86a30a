/** Sender keys for group messages (server/internal/senderkeys): a hash ratchet, authenticated
    encryption and signatures. The primitives are parameters, with the laws their standards give:
    HMAC of section 2 of RFC 2104, ChaCha20-Poly1305 of section 2.8 of RFC 8439 and Ed25519 of
    section 5.1 of RFC 8032. */
module SenderKeys {
  import opened Wrappers
  import opened Hex

  const KEY_SIZE: nat := 32
  const NONCE_SIZE: nat := 12
  const TAG_SIZE: nat := 16
  const PUBLIC_KEY_SIZE: nat := 32
  const PRIVATE_KEY_SIZE: nat := 64

  /** The longest text ChaCha20-Poly1305 seals, and the longest ciphertext it opens: 2^38 - 64 bytes and a tag. */
  const MAX_TEXT: nat := 0x40_0000_0000 - 64
  const MAX_CIPHERTEXT: nat := 0x40_0000_0000 - 48

  type Nonce = n: Bytes | |n| == NONCE_SIZE witness seq(NONCE_SIZE, _ => 0)

  datatype Crypto = Crypto(hmac: (Bytes, Bytes) -> Bytes,
                           seal: (Bytes, Bytes, Bytes) -> Bytes,
                           open: (Bytes, Bytes, Bytes) -> Option<Bytes>,
                           sign: (Bytes, Bytes) -> Bytes,
                           verify: (Bytes, Bytes, Bytes) -> bool,
                           publicKey: Bytes -> Bytes)

  ghost predicate IsSound(c: Crypto) {
    && (forall key, data :: |c.hmac(key, data)| == KEY_SIZE)
    && (forall key, nonce, text :: |c.seal(key, nonce, text)| == |text| + TAG_SIZE)
    && (forall key, nonce, text :: c.open(key, nonce, c.seal(key, nonce, text)) == Some(text))
    && (forall key, data :: |key| == PRIVATE_KEY_SIZE ==> c.verify(c.publicKey(key), data, c.sign(key, data)))
    && (forall key :: |key| == PRIVATE_KEY_SIZE ==> |c.publicKey(key)| == PUBLIC_KEY_SIZE)
  }

  /** The laws can be met. */
  lemma SoundCryptoExists() returns (c: Crypto)
    ensures IsSound(c)
  {
    c := Crypto((k, d) => seq(KEY_SIZE, _ => 0), (k, n, t) => t + seq(TAG_SIZE, _ => 0),
                (k, n, t) => if |t| < TAG_SIZE then None else Some(t[..|t| - TAG_SIZE]),
                (k, d) => [], (k, d, s) => true, k => seq(PUBLIC_KEY_SIZE, _ => 0));
    forall key: Bytes, nonce: Bytes, text: Bytes
      ensures c.open(key, nonce, c.seal(key, nonce, text)) == Some(text)
    {
      assert (text + seq(TAG_SIZE, _ => 0))[..|text|] == text;
    }
  }

  // The ratchet.

  function NextChain(c: Crypto, chain: Bytes): Bytes {
    c.hmac(chain, StringBytes("ratchet"))
  }

  function MessageKey(c: Crypto, chain: Bytes): Bytes {
    c.hmac(chain, StringBytes("message"))
  }

  function ChainAt(c: Crypto, chain: Bytes, n: nat): Bytes {
    if n == 0 then chain else NextChain(c, ChainAt(c, chain, n - 1))
  }

  function KeysUpTo(c: Crypto, chain: Bytes, n: nat): seq<Bytes> {
    if n == 0 then [] else KeysUpTo(c, chain, n - 1) + [MessageKey(c, ChainAt(c, chain, n - 1))]
  }

  method RatchetN(c: Crypto, chain: Bytes, n: nat) returns (final: Bytes, keys: array<Bytes>)
    ensures fresh(keys) && final == ChainAt(c, chain, n) && keys[..] == KeysUpTo(c, chain, n)
  {
    final := chain;
    keys := new Bytes[n](_ => []);
    for i := 0 to n
      invariant final == ChainAt(c, chain, i)
      invariant keys[..i] == KeysUpTo(c, chain, i)
    {
      ghost var done := keys[..i];
      keys[i] := MessageKey(c, final);
      assert keys[..i + 1] == done + [keys[i]];
      final := NextChain(c, final);
    }
    assert keys[..n] == keys[..];
  }

  /** Ratcheting `a + b` steps is ratcheting `a` steps and then `b` more from where that ended. */
  lemma {:induction false} RatchetSplits(c: Crypto, chain: Bytes, a: nat, b: nat)
    ensures ChainAt(c, chain, a + b) == ChainAt(c, ChainAt(c, chain, a), b)
    ensures KeysUpTo(c, chain, a + b) == KeysUpTo(c, chain, a) + KeysUpTo(c, ChainAt(c, chain, a), b)
    decreases b
  {
    if b > 0 {
      RatchetSplits(c, chain, a, b - 1);
    }
  }

  /** The chain keys by the labels they are derived with. */
  function DerivedChain(c: Crypto, chain: Bytes, n: nat): Bytes {
    if n == 0 then chain else c.hmac(DerivedChain(c, chain, n - 1), StringBytes("ratchet"))
  }

  /** The n-th chain key is derived with "ratchet" from the one before, the n-th message key with "message" from
      the n-th chain key. */
  lemma {:induction false} KeysAreDerived(c: Crypto, chain: Bytes, n: nat, i: nat)
    requires i < n
    ensures ChainAt(c, chain, n) == DerivedChain(c, chain, n)
    ensures |KeysUpTo(c, chain, n)| == n && KeysUpTo(c, chain, n)[i] == c.hmac(DerivedChain(c, chain, i), StringBytes("message"))
    decreases n
  {
    ChainIsDerived(c, chain, n);
    ChainIsDerived(c, chain, n - 1);
    KeyCount(c, chain, n - 1);
    if i < n - 1 {
      KeysAreDerived(c, chain, n - 1, i);
    }
  }

  lemma {:induction false} ChainIsDerived(c: Crypto, chain: Bytes, n: nat)
    ensures ChainAt(c, chain, n) == DerivedChain(c, chain, n)
  {
    if n > 0 {
      ChainIsDerived(c, chain, n - 1);
    }
  }

  lemma {:induction false} KeyCount(c: Crypto, chain: Bytes, n: nat)
    ensures |KeysUpTo(c, chain, n)| == n
  {
    if n > 0 {
      KeyCount(c, chain, n - 1);
    }
  }

  /** The two labels give different keys. */
  ghost predicate SeparatesLabels(c: Crypto) {
    forall k: Bytes, l: Bytes :: c.hmac(k, StringBytes("message")) != c.hmac(l, StringBytes("ratchet"))
  }

  ghost predicate HasNoCollisions(c: Crypto) {
    forall k: Bytes, d: Bytes, l: Bytes, e: Bytes :: c.hmac(k, d) == c.hmac(l, e) ==> k == l && d == e
  }

  lemma NoCollisionsSeparate(c: Crypto)
    requires HasNoCollisions(c)
    ensures SeparatesLabels(c)
  {
    assert StringBytes("message")[0] == 109 && StringBytes("ratchet")[0] == 114;
  }

  /** No message key is a chain key that follows, at any distance: knowing message keys does not give the chain. */
  lemma MessageKeysAreNotChainKeys(c: Crypto, chain: Bytes, n: nat, i: nat, j: nat)
    requires SeparatesLabels(c) && i < n && j > 0
    ensures |KeysUpTo(c, chain, n)| == n && KeysUpTo(c, chain, n)[i] != ChainAt(c, chain, j)
  {
    KeysAreDerived(c, chain, n, i);
    ChainIsDerived(c, chain, j);
  }

  // Encryption and decryption of one message.

  datatype EncryptedMessage = EncryptedMessage(keyId: nat, ciphertext: Bytes, nonce: Bytes, signature: Bytes)

  /** What a call of Encrypt comes to. */
  datatype Encrypted = Sealed(msg: EncryptedMessage, next: Bytes) | Failed(error: string) | Aborted

  /** `nonce` is what the random source delivers, None if it fails. Sealing a text that is too long and signing
      with a key of the wrong size panic. */
  function Encrypt(c: Crypto, chain: Bytes, signingKey: Bytes, keyId: nat, plaintext: Bytes, nonce: Option<Nonce>): Encrypted
  {
    var key := MessageKey(c, chain);
    if |key| != KEY_SIZE then Failed("chacha20poly1305")
    else if nonce.None? then Failed("nonce")
    else if |plaintext| > MAX_TEXT || |signingKey| != PRIVATE_KEY_SIZE then Aborted
    else
      var ciphertext := c.seal(key, nonce.value, plaintext);
      Sealed(EncryptedMessage(keyId, ciphertext, nonce.value, c.sign(signingKey, ciphertext)), NextChain(c, chain))
  }

  /** What a call of Decrypt comes to. */
  datatype Decrypted = Opened(text: Bytes, next: Bytes) | Refused(error: string) | Panicked

  /** Verifying with a public key of the wrong size panics. The signature, which covers the ciphertext alone, is
      tested next. Opening panics on a nonce of the wrong size and on a ciphertext that is too long. */
  function Decrypt(c: Crypto, chain: Bytes, publicKey: Bytes, msg: EncryptedMessage): Decrypted
  {
    if |publicKey| != PUBLIC_KEY_SIZE then Panicked
    else if !c.verify(publicKey, msg.ciphertext, msg.signature) then Refused("invalid signature")
    else
      var key := MessageKey(c, chain);
      if |key| != KEY_SIZE then Refused("chacha20poly1305")
      else if |msg.nonce| != NONCE_SIZE || |msg.ciphertext| > MAX_CIPHERTEXT then Panicked
      else
        match c.open(key, msg.nonce, msg.ciphertext)
        case None => Refused("decrypt")
        case Some(plaintext) => Opened(plaintext, NextChain(c, chain))
  }

  // Conversations.

  /** What a sender has produced: the messages, the chain key it is left with, and whether it got to the end. */
  datatype Sent = Sent(msgs: seq<EncryptedMessage>, chain: Bytes, alive: bool)

  /** The messages a sender produces, each from the chain key the one before left. */
  function EncryptAll(c: Crypto, chain: Bytes, signingKey: Bytes, keyId: nat, texts: seq<Bytes>, nonces: seq<Nonce>): Sent
    requires |nonces| == |texts|
    decreases |texts|
  {
    if texts == [] then Sent([], chain, true)
    else
      match Encrypt(c, chain, signingKey, keyId, texts[0], Some(nonces[0]))
      case Failed(_) => Sent([], chain, false)
      case Aborted => Sent([], chain, false)
      case Sealed(msg, next) =>
        var r := EncryptAll(c, next, signingKey, keyId, texts[1..], nonces[1..]);
        r.(msgs := [msg] + r.msgs)
  }

  /** What a stream gives a receiver: the texts, the chain key it is left with, and whether it survived. */
  datatype Received = Received(texts: seq<Bytes>, chain: Bytes, alive: bool)

  /** A receiver takes the next chain key from each message that decrypts, keeps its own on an error and
      stops at a panic. */
  function DecryptAll(c: Crypto, chain: Bytes, publicKey: Bytes, msgs: seq<EncryptedMessage>): Received
    decreases |msgs|
  {
    if msgs == [] then Received([], chain, true)
    else
      match Decrypt(c, chain, publicKey, msgs[0])
      case Panicked => Received([], chain, false)
      case Refused(_) => DecryptAll(c, chain, publicKey, msgs[1..])
      case Opened(text, next) =>
        var r := DecryptAll(c, next, publicKey, msgs[1..]);
        r.(texts := [text] + r.texts)
  }

  lemma ChainStep(c: Crypto, chain: Bytes, n: nat)
    ensures ChainAt(c, NextChain(c, chain), n) == ChainAt(c, chain, n + 1)
  {
    RatchetSplits(c, chain, 1, n);
    assert ChainAt(c, chain, 1) == NextChain(c, ChainAt(c, chain, 0));
  }

  /** The receiver of any messages whatever is as many steps along the chain as it accepted messages. */
  lemma {:induction false} ReceiverIsInStep(c: Crypto, chain: Bytes, publicKey: Bytes, msgs: seq<EncryptedMessage>)
    ensures DecryptAll(c, chain, publicKey, msgs).chain == ChainAt(c, chain, |DecryptAll(c, chain, publicKey, msgs).texts|)
    decreases |msgs|
  {
    if msgs != [] {
      match Decrypt(c, chain, publicKey, msgs[0])
      case Panicked =>
      case Refused(_) => ReceiverIsInStep(c, chain, publicKey, msgs[1..]);
      case Opened(_, next) =>
        ReceiverIsInStep(c, next, publicKey, msgs[1..]);
        ChainStep(c, chain, |DecryptAll(c, next, publicKey, msgs[1..]).texts|);
    }
  }

  predicate IsSigned(c: Crypto, publicKey: Bytes, msg: EncryptedMessage) {
    c.verify(publicKey, msg.ciphertext, msg.signature)
  }

  /** The messages that carry a valid signature. */
  function Signed(c: Crypto, publicKey: Bytes, msgs: seq<EncryptedMessage>): seq<EncryptedMessage> {
    if msgs == [] then []
    else (if IsSigned(c, publicKey, msgs[0]) then [msgs[0]] else []) + Signed(c, publicKey, msgs[1..])
  }

  lemma {:induction false} SignedOnly(c: Crypto, chain: Bytes, publicKey: Bytes, msgs: seq<EncryptedMessage>)
    requires |publicKey| == PUBLIC_KEY_SIZE
    ensures DecryptAll(c, chain, publicKey, msgs) == DecryptAll(c, chain, publicKey, Signed(c, publicKey, msgs))
    decreases |msgs|
  {
    if msgs != [] {
      var rest := Signed(c, publicKey, msgs[1..]);
      if IsSigned(c, publicKey, msgs[0]) {
        assert Signed(c, publicKey, msgs)[1..] == rest;
        match Decrypt(c, chain, publicKey, msgs[0])
        case Panicked =>
        case Refused(_) => SignedOnly(c, chain, publicKey, msgs[1..]);
        case Opened(_, next) => SignedOnly(c, next, publicKey, msgs[1..]);
      } else {
        assert Signed(c, publicKey, msgs) == rest;
        SignedOnly(c, chain, publicKey, msgs[1..]);
      }
    }
  }

  /** Messages with a bad signature change nothing, however many, wherever they are and whatever nonce they
      carry: for every public key but one of the wrong size, and for that one exactly unless they are all
      there is. */
  lemma ForgeriesAreIgnored(c: Crypto, chain: Bytes, publicKey: Bytes, msgs: seq<EncryptedMessage>)
    ensures DecryptAll(c, chain, publicKey, msgs) == DecryptAll(c, chain, publicKey, Signed(c, publicKey, msgs)) <==>
      (|publicKey| == PUBLIC_KEY_SIZE || msgs == [] || Signed(c, publicKey, msgs) != [])
  {
    if |publicKey| == PUBLIC_KEY_SIZE {
      SignedOnly(c, chain, publicKey, msgs);
    }
  }

  /** The message can be opened without a panic. */
  predicate IsFit(m: EncryptedMessage) {
    |m.nonce| == NONCE_SIZE && |m.ciphertext| <= MAX_CIPHERTEXT
  }

  /** Exactly which streams a receiver survives, whatever its chain key: the empty one, and with a public key of
      the right size those in which every validly signed message has a nonce of twelve bytes and a
      ciphertext that is not too long. */
  lemma {:induction false} SurvivesIff(c: Crypto, chain: Bytes, publicKey: Bytes, msgs: seq<EncryptedMessage>)
    requires IsSound(c)
    ensures DecryptAll(c, chain, publicKey, msgs).alive <==>
      (msgs == [] || (|publicKey| == PUBLIC_KEY_SIZE && forall m :: m in msgs && IsSigned(c, publicKey, m) ==> IsFit(m)))
    decreases |msgs|
  {
    if msgs != [] {
      assert msgs == [msgs[0]] + msgs[1..] && msgs[0] in msgs;
      match Decrypt(c, chain, publicKey, msgs[0])
      case Panicked =>
      case Refused(_) => SurvivesIff(c, chain, publicKey, msgs[1..]);
      case Opened(_, next) => SurvivesIff(c, next, publicKey, msgs[1..]);
    }
  }

  /** What a receiver has after a second stream, if it survived the first. */
  function Then(c: Crypto, publicKey: Bytes, r: Received, more: seq<EncryptedMessage>): Received {
    if !r.alive then r
    else
      var q := DecryptAll(c, r.chain, publicKey, more);
      q.(texts := r.texts + q.texts)
  }

  /** Receiving one stream after another is receiving their concatenation. */
  lemma {:induction false} DecryptConcat(c: Crypto, chain: Bytes, publicKey: Bytes, a: seq<EncryptedMessage>, b: seq<EncryptedMessage>)
    ensures DecryptAll(c, chain, publicKey, a + b) == Then(c, publicKey, DecryptAll(c, chain, publicKey, a), b)
    decreases |a|
  {
    if a == [] {
      assert a + b == b && [] + DecryptAll(c, chain, publicKey, b).texts == DecryptAll(c, chain, publicKey, b).texts;
    } else {
      assert (a + b)[0] == a[0] && (a + b)[1..] == a[1..] + b;
      match Decrypt(c, chain, publicKey, a[0])
      case Panicked =>
      case Refused(_) => DecryptConcat(c, chain, publicKey, a[1..], b);
      case Opened(text, next) =>
        DecryptConcat(c, next, publicKey, a[1..], b);
        var r := DecryptAll(c, next, publicKey, a[1..]);
        var more := DecryptAll(c, r.chain, publicKey, b).texts;
        assert [text] + (r.texts + more) == [text] + r.texts + more;
    }
  }

  /** Any message the receiver would refuse at its place can be inserted there without effect. */
  lemma RejectedIsIgnored(c: Crypto, chain: Bytes, publicKey: Bytes,
                          before: seq<EncryptedMessage>, bad: EncryptedMessage, after: seq<EncryptedMessage>)
    requires DecryptAll(c, chain, publicKey, before).alive ==>
      Decrypt(c, DecryptAll(c, chain, publicKey, before).chain, publicKey, bad).Refused?
    ensures DecryptAll(c, chain, publicKey, before + ([bad] + after)) == DecryptAll(c, chain, publicKey, before + after)
  {
    assert ([bad] + after)[1..] == after;
    DecryptConcat(c, chain, publicKey, before, [bad] + after);
    DecryptConcat(c, chain, publicKey, before, after);
  }

  /** Exactly which texts a sender gets through to the end. */
  lemma {:induction false} SendsAllIff(c: Crypto, chain: Bytes, signingKey: Bytes, keyId: nat, texts: seq<Bytes>, nonces: seq<Nonce>)
    requires IsSound(c) && |nonces| == |texts|
    ensures EncryptAll(c, chain, signingKey, keyId, texts, nonces).alive <==>
      (texts == [] || (|signingKey| == PRIVATE_KEY_SIZE && forall t :: t in texts ==> |t| <= MAX_TEXT))
    decreases |texts|
  {
    if texts != [] {
      assert texts == [texts[0]] + texts[1..];
      SendsAllIff(c, NextChain(c, chain), signingKey, keyId, texts[1..], nonces[1..]);
    }
  }

  /** The receiver of what a sender produced, the whole of it or what came before a panic, has exactly those
      texts in order and the sender's chain key. */
  lemma {:induction false} EncryptedRoundTrip(c: Crypto, chain: Bytes, signingKey: Bytes, keyId: nat, texts: seq<Bytes>, nonces: seq<Nonce>)
    requires IsSound(c) && |nonces| == |texts|
    ensures var sent := EncryptAll(c, chain, signingKey, keyId, texts, nonces); var n := |sent.msgs|;
      && n <= |texts| && (sent.alive ==> n == |texts|)
      && sent.chain == ChainAt(c, chain, n)
      && DecryptAll(c, chain, c.publicKey(signingKey), sent.msgs) == Received(texts[..n], sent.chain, true)
    decreases |texts|
  {
    var e := if texts == [] then Aborted else Encrypt(c, chain, signingKey, keyId, texts[0], Some(nonces[0]));
    if e.Sealed? {
      EncryptedRoundTrip(c, e.next, signingKey, keyId, texts[1..], nonces[1..]);
      var sent := EncryptAll(c, chain, signingKey, keyId, texts, nonces);
      var rest := EncryptAll(c, e.next, signingKey, keyId, texts[1..], nonces[1..]);
      ChainStep(c, chain, |rest.msgs|);
      assert sent.msgs[1..] == rest.msgs;
      FirstIsOpened(c, chain, signingKey, keyId, texts[0], nonces[0]);
      assert [texts[0]] + texts[1..][..|rest.msgs|] == texts[..|sent.msgs|];
    }
  }

  /** What is on the wire: the i-th message carries the key id and the i-th nonce, its ciphertext is the i-th text
      sealed under the i-th message key with that nonce, and its signature is over the ciphertext. */
  lemma {:induction false} MessagesAre(c: Crypto, chain: Bytes, signingKey: Bytes, keyId: nat, texts: seq<Bytes>, nonces: seq<Nonce>, i: nat)
    requires IsSound(c) && |nonces| == |texts| && i < |EncryptAll(c, chain, signingKey, keyId, texts, nonces).msgs|
    ensures i < |texts|
    ensures var m := EncryptAll(c, chain, signingKey, keyId, texts, nonces).msgs[i];
      && m.keyId == keyId && m.nonce == nonces[i]
      && m.ciphertext == c.seal(c.hmac(DerivedChain(c, chain, i), StringBytes("message")), nonces[i], texts[i])
      && m.signature == c.sign(signingKey, m.ciphertext)
    decreases |texts|
  {
    if i > 0 {
      var next := NextChain(c, chain);
      MessagesAre(c, next, signingKey, keyId, texts[1..], nonces[1..], i - 1);
      ChainIsDerived(c, next, i - 1);
      ChainIsDerived(c, chain, i);
      ChainStep(c, chain, i - 1);
    }
  }

  lemma FirstIsOpened(c: Crypto, chain: Bytes, signingKey: Bytes, keyId: nat, text: Bytes, nonce: Nonce)
    requires IsSound(c) && Encrypt(c, chain, signingKey, keyId, text, Some(nonce)).Sealed?
    ensures Decrypt(c, chain, c.publicKey(signingKey), Encrypt(c, chain, signingKey, keyId, text, Some(nonce)).msg)
      == Opened(text, NextChain(c, chain))
  {
  }

  /** Sender and receiver stay in step: from the same chain key, any stream whose validly signed
      messages are those the sender encrypted gives the receiver exactly the sender's texts, and both
      chains end where `RatchetN` ends. */
  lemma ChainsStayInStep(c: Crypto, chain: Bytes, signingKey: Bytes, keyId: nat, texts: seq<Bytes>, nonces: seq<Nonce>,
                         stream: seq<EncryptedMessage>)
    requires IsSound(c) && |nonces| == |texts|
    requires Signed(c, c.publicKey(signingKey), stream) == EncryptAll(c, chain, signingKey, keyId, texts, nonces).msgs
    ensures var sent := EncryptAll(c, chain, signingKey, keyId, texts, nonces); var n := |sent.msgs|;
      && n <= |texts| && (sent.alive ==> n == |texts|)
      && sent.chain == ChainAt(c, chain, n)
      && (|c.publicKey(signingKey)| == PUBLIC_KEY_SIZE ==>
            DecryptAll(c, chain, c.publicKey(signingKey), stream) == Received(texts[..n], ChainAt(c, chain, n), true))
  {
    EncryptedRoundTrip(c, chain, signingKey, keyId, texts, nonces);
    ForgeriesAreIgnored(c, chain, c.publicKey(signingKey), stream);
  }

  /** Both conditions are needed. A message that is received as it was sent is not survived once its nonce is
      cut, its signature still being valid, nor is any message at all with a public key of the wrong size. */
  lemma CutNonceIsNotSurvived(c: Crypto, chain: Bytes, signingKey: Bytes, keyId: nat, text: Bytes, nonce: Nonce, n: nat, badKey: Bytes)
    requires IsSound(c) && |signingKey| == PRIVATE_KEY_SIZE && |text| <= MAX_TEXT
    requires n < NONCE_SIZE && |badKey| != PUBLIC_KEY_SIZE
    ensures Encrypt(c, chain, signingKey, keyId, text, Some(nonce)).Sealed?
    ensures var msg := Encrypt(c, chain, signingKey, keyId, text, Some(nonce)).msg;
      && DecryptAll(c, chain, c.publicKey(signingKey), [msg]) == Received([text], NextChain(c, chain), true)
      && !DecryptAll(c, chain, c.publicKey(signingKey), [msg.(nonce := nonce[..n])]).alive
      && !DecryptAll(c, chain, badKey, [msg]).alive
  {
    var msg := Encrypt(c, chain, signingKey, keyId, text, Some(nonce)).msg;
    var cut := msg.(nonce := nonce[..n]);
    FirstIsOpened(c, chain, signingKey, keyId, text, nonce);
    assert [msg][1..] == [];
    assert cut in [cut] && IsSigned(c, c.publicKey(signingKey), cut);
    SurvivesIff(c, chain, c.publicKey(signingKey), [cut]);
    SurvivesIff(c, chain, badKey, [msg]);
  }
}
