/** Sealing one message to many medium-term keys, each recipient found again by a two-byte hint that may collide. */
module HeaderEncryption {
  import opened Common

  datatype Error = Dh | NoRecipients | Decrypt

  const KEY_LENGTH: nat := 32

  type Key = s: Bytes | |s| == KEY_LENGTH witness seq(KEY_LENGTH, i => 0)

  datatype Secret = Secret(bytes: Key)

  datatype Public = Public(bytes: Key)

  datatype Header = Header(hint: (Byte, Byte), sealedKey: Bytes)

  /** What the body is bound to besides its key. */
  datatype Binding = Binding(epk: Public, headers: seq<Header>)

  datatype Message = Message(epk: Public, headers: seq<Header>, body: Bytes)

  /** The cryptography, as functions; `Lawful` and `Separating` say what is used of it. */
  datatype Primitives = Primitives(
    publicOf: Secret -> Public,
    dh: (Secret, Public) -> Option<Key>,
    stream: (Key, Bytes) -> Bytes,
    seal: (Key, Bytes, Binding) -> Bytes,
    open: (Key, Bytes, Binding) -> Option<Bytes>,
    hint: Public -> (Byte, Byte))

  /** Both ends agree, the stream cipher undoes itself, and a sealed body opens under its own key and binding only. */
  ghost predicate Lawful(p: Primitives) {
    && (forall a, b :: p.dh(a, p.publicOf(b)) == p.dh(b, p.publicOf(a)))
    && (forall k, x :: p.stream(k, p.stream(k, x)) == x && |p.stream(k, x)| == |x|)
    && (forall k, x, b, k', b' ::
          p.open(k', p.seal(k, x, b), b') == if k' == k && b' == b then Some(x) else None)
  }

  /** Different public keys share different secrets, and one secret's seal of a key is not another's. */
  ghost predicate Separating(p: Primitives) {
    && (forall e, a, b :: p.dh(e, a).Some? && p.dh(e, a) == p.dh(e, b) ==> a == b)
    && (forall k, k', x: Key :: p.stream(k', p.stream(k, x)) == x ==> k' == k)
  }

  // ---------- Encryption ----------

  function HeaderFor(p: Primitives, esk: Secret, key: Key, to: Public): Header
    requires p.dh(esk, to).Some?
  {
    Header(p.hint(to), p.stream(p.dh(esk, to).value, key))
  }

  predicate Reachable(p: Primitives, esk: Secret, recipients: seq<Public>) {
    forall i :: 0 <= i < |recipients| ==> p.dh(esk, recipients[i]).Some?
  }

  function Headers(p: Primitives, esk: Secret, key: Key, recipients: seq<Public>): seq<Header>
    requires Reachable(p, esk, recipients)
  {
    seq(|recipients|, i requires 0 <= i < |recipients| => HeaderFor(p, esk, key, recipients[i]))
  }

  function Encrypted(p: Primitives, esk: Secret, key: Key, plaintext: Bytes,
                     recipients: seq<Public>): Result<Message, Error>
  {
    if !Reachable(p, esk, recipients) then Err(Dh)
    else if recipients == [] then Err(NoRecipients)
    else
      var epk, headers := p.publicOf(esk), Headers(p, esk, key, recipients);
      Ok(Message(epk, headers, p.seal(key, plaintext, Binding(epk, headers))))
  }

  /** The header carries the recipient's hint, and the message key under what the sender shares with it. */
  predicate Addresses(p: Primitives, esk: Secret, key: Key, h: Header, to: Public) {
    h.hint == p.hint(to) && p.dh(esk, to).Some? && h.sealedKey == p.stream(p.dh(esk, to).value, key)
  }

  /** When encryption succeeds, why it fails, and what it makes. */
  lemma EncryptsIff(p: Primitives, esk: Secret, key: Key, plaintext: Bytes, recipients: seq<Public>)
    ensures var r := Encrypted(p, esk, key, plaintext, recipients);
            && (r.Ok? <==> recipients != [] && forall i | 0 <= i < |recipients| :: p.dh(esk, recipients[i]).Some?)
            && (r == Err(Dh) <==> exists i :: 0 <= i < |recipients| && p.dh(esk, recipients[i]).None?)
            && (r == Err(NoRecipients) <==> recipients == [])
    ensures var r := Encrypted(p, esk, key, plaintext, recipients);
            r.Ok? ==>
              && r.value.epk == p.publicOf(esk) && |r.value.headers| == |recipients|
              && (forall i | 0 <= i < |recipients| :: Addresses(p, esk, key, r.value.headers[i], recipients[i]))
              && r.value.body == p.seal(key, plaintext, Binding(r.value.epk, r.value.headers))
  {
    assert !Reachable(p, esk, recipients) ==> exists i :: 0 <= i < |recipients| && p.dh(esk, recipients[i]).None?;
  }

  /** One header a recipient, in order; the first unusable key fails the whole message. */
  method EncryptBytes(p: Primitives, esk: Secret, key: Key, plaintext: Bytes, recipients: seq<Public>)
    returns (r: Result<Message, Error>)
    ensures r == Encrypted(p, esk, key, plaintext, recipients)
    ensures r.Ok? <==> recipients != [] && forall i | 0 <= i < |recipients| :: p.dh(esk, recipients[i]).Some?
    ensures r == Err(Dh) <==> exists i :: 0 <= i < |recipients| && p.dh(esk, recipients[i]).None?
    ensures r == Err(NoRecipients) <==> recipients == []
    ensures r.Ok? ==> r.value.epk == p.publicOf(esk) && |r.value.headers| == |recipients|
    ensures r.Ok? ==> forall i | 0 <= i < |recipients| :: Addresses(p, esk, key, r.value.headers[i], recipients[i])
    ensures r.Ok? ==> r.value.body == p.seal(key, plaintext, Binding(r.value.epk, r.value.headers))
  {
    EncryptsIff(p, esk, key, plaintext, recipients);
    var epk := p.publicOf(esk);
    var headers := [];
    for i := 0 to |recipients|
      invariant Reachable(p, esk, recipients[..i])
      invariant headers == Headers(p, esk, key, recipients[..i])
    {
      var shared := p.dh(esk, recipients[i]);
      if shared.None? {
        return Err(Dh);
      }
      headers := headers + [Header(p.hint(recipients[i]), p.stream(shared.value, key))];
      assert recipients[..i + 1] == recipients[..i] + [recipients[i]];
    }
    assert recipients[..|recipients|] == recipients;
    if headers == [] {
      return Err(NoRecipients);
    }
    return Ok(Message(epk, headers, p.seal(key, plaintext, Binding(epk, headers))));
  }

  // ---------- Decryption ----------

  /** What one header gives the holder of a shared secret: a foreign hint or a key of the wrong length gives nothing. */
  function OpenVia(p: Primitives, shared: Key, mark: (Byte, Byte), m: Message, h: Header): Option<Bytes> {
    if h.hint != mark then None
    else
      var key := p.stream(shared, h.sealedKey);
      if |key| != KEY_LENGTH then None else p.open(key, m.body, Binding(m.epk, m.headers))
  }

  /** The first header that opens the body. */
  function Scan(p: Primitives, shared: Key, mark: (Byte, Byte), m: Message, headers: seq<Header>): (r: Option<Bytes>)
    ensures r.None? <==> forall h | h in headers :: OpenVia(p, shared, mark, m, h).None?
    ensures r.Some? ==> exists h | h in headers :: OpenVia(p, shared, mark, m, h) == r
  {
    if headers == [] then None
    else
      var first := OpenVia(p, shared, mark, m, headers[0]);
      if first.Some? then first else Scan(p, shared, mark, m, headers[1..])
  }

  function Decrypted(p: Primitives, m: Message, s: Secret): Result<Bytes, Error> {
    var shared := p.dh(s, m.epk);
    if shared.None? then Err(Dh)
    else
      match Scan(p, shared.value, p.hint(p.publicOf(s)), m, m.headers)
      case Some(plaintext) => Ok(plaintext)
      case None => Err(Decrypt)
  }

  method DecryptBytes(p: Primitives, m: Message, s: Secret) returns (r: Result<Bytes, Error>)
    ensures r == Decrypted(p, m, s)
  {
    var mark := p.hint(p.publicOf(s));
    var shared := p.dh(s, m.epk);
    if shared.None? {
      return Err(Dh);
    }
    for i := 0 to |m.headers|
      invariant Scan(p, shared.value, mark, m, m.headers) == Scan(p, shared.value, mark, m, m.headers[i..])
    {
      if m.headers[i].hint != mark {
        continue;
      }
      var key := p.stream(shared.value, m.headers[i].sealedKey);
      if |key| != KEY_LENGTH {
        continue;
      }
      var plaintext := p.open(key, m.body, Binding(m.epk, m.headers));
      if plaintext.Some? {
        return Ok(plaintext.value);
      }
    }
    return Err(Decrypt);
  }

  // ---------- What encryption and decryption promise each other ----------

  /** Header `i` carries the hint of `s` and unseals, under what `s` shares with the sender, to the message key. */
  ghost predicate Carries(p: Primitives, m: Message, key: Key, s: Secret, i: nat) {
    && i < |m.headers| && p.dh(s, m.epk).Some?
    && m.headers[i].hint == p.hint(p.publicOf(s))
    && p.stream(p.dh(s, m.epk).value, m.headers[i].sealedKey) == key
  }

  /** Whoever tries reads the plaintext or nothing, and reads it exactly if some header carries the key to them. */
  lemma DecryptsIff(p: Primitives, esk: Secret, key: Key, plaintext: Bytes, recipients: seq<Public>, s: Secret)
    requires Lawful(p)
    requires Encrypted(p, esk, key, plaintext, recipients).Ok?
    ensures var m := Encrypted(p, esk, key, plaintext, recipients).value;
            var r := Decrypted(p, m, s);
            && (r == Ok(plaintext) || r.Err?)
            && (r.Ok? <==> exists i: nat :: Carries(p, m, key, s, i))
            && (r == Err(Dh) <==> p.dh(s, m.epk).None?)
  {
    var m := Encrypted(p, esk, key, plaintext, recipients).value;
    if p.dh(s, m.epk).Some? {
      var shared, mark := p.dh(s, m.epk).value, p.hint(p.publicOf(s));
      forall i: nat | i < |m.headers|
        ensures OpenVia(p, shared, mark, m, m.headers[i]) == if Carries(p, m, key, s, i) then Some(plaintext) else None
      {
      }
      if i: nat :| Carries(p, m, key, s, i) {
        assert m.headers[i] in m.headers;
      }
    }
  }

  /** Every listed recipient reads the message, whichever other hints collide with theirs. */
  lemma RecipientReads(p: Primitives, esk: Secret, key: Key, plaintext: Bytes, recipients: seq<Public>, s: Secret)
    requires Lawful(p) && p.publicOf(s) in recipients
    requires forall i | 0 <= i < |recipients| :: p.dh(esk, recipients[i]).Some?
    ensures Encrypted(p, esk, key, plaintext, recipients).Ok?
    ensures Decrypted(p, Encrypted(p, esk, key, plaintext, recipients).value, s) == Ok(plaintext)
  {
    EncryptsIff(p, esk, key, plaintext, recipients);
    var m := Encrypted(p, esk, key, plaintext, recipients).value;
    var i: nat :| i < |recipients| && recipients[i] == p.publicOf(s);
    assert p.dh(esk, p.publicOf(s)) == p.dh(s, p.publicOf(esk));
    assert m.headers[i] == HeaderFor(p, esk, key, recipients[i]);
    assert Carries(p, m, key, s, i);
    DecryptsIff(p, esk, key, plaintext, recipients, s);
  }

  /** And when secrets separate, nobody else does. */
  lemma OnlyRecipientsRead(p: Primitives, esk: Secret, key: Key, plaintext: Bytes, recipients: seq<Public>, s: Secret)
    requires Lawful(p) && Separating(p)
    requires Encrypted(p, esk, key, plaintext, recipients).Ok?
    ensures Decrypted(p, Encrypted(p, esk, key, plaintext, recipients).value, s).Ok? <==> p.publicOf(s) in recipients
  {
    var m := Encrypted(p, esk, key, plaintext, recipients).value;
    DecryptsIff(p, esk, key, plaintext, recipients, s);
    EncryptsIff(p, esk, key, plaintext, recipients);
    if p.publicOf(s) in recipients {
      RecipientReads(p, esk, key, plaintext, recipients, s);
    }
    if i: nat :| Carries(p, m, key, s, i) {
      assert m.headers[i] == HeaderFor(p, esk, key, recipients[i]);
      assert p.dh(esk, p.publicOf(s)) == p.dh(s, p.publicOf(esk));
      assert p.publicOf(s) == recipients[i];
    }
  }

  /** A body moved under another sender key or other headers opens for nobody. */
  lemma TamperedReadsNothing(p: Primitives, esk: Secret, key: Key, plaintext: Bytes, recipients: seq<Public>,
                             tampered: Message, s: Secret)
    requires Lawful(p)
    requires Encrypted(p, esk, key, plaintext, recipients).Ok?
    requires var m := Encrypted(p, esk, key, plaintext, recipients).value;
             tampered.body == m.body && tampered != m
    ensures Decrypted(p, tampered, s).Err?
  {
    var m := Encrypted(p, esk, key, plaintext, recipients).value;
    assert Binding(tampered.epk, tampered.headers) != Binding(m.epk, m.headers);
    if p.dh(s, tampered.epk).Some? {
      var shared, mark := p.dh(s, tampered.epk).value, p.hint(p.publicOf(s));
      forall h | h in tampered.headers ensures OpenVia(p, shared, mark, tampered, h).None? {
      }
    }
  }
}
