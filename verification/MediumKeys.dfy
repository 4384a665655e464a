/** A device's two medium-term keys, their rotation in two steps, and which direct messages stay readable. */
module MediumKeys {
  import opened Common
  import opened HeaderEncryption

  /** The two stored secrets, and the public key the server hands to senders. */
  datatype Keys = Keys(prev: Secret, current: Secret, published: Public)

  /** A rotation that failed before storing, or that stored a key which the server then did or did not publish. */
  datatype Attempt = Aborted | Stored(key: Secret, published: bool)

  function Registered(p: Primitives, first: Secret): Keys {
    Keys(first, first, p.publicOf(first))
  }

  function Rotate(p: Primitives, k: Keys, a: Attempt): Keys {
    match a
    case Aborted => k
    case Stored(key, published) => Keys(k.current, key, if published then p.publicOf(key) else k.published)
  }

  /** Tried with the current key, then with the previous one. */
  function Received(p: Primitives, k: Keys, m: Message): Result<Bytes, Error> {
    var r := Decrypted(p, m, k.current);
    if r.Ok? then r else Decrypted(p, m, k.prev)
  }

  class Device {
    var prev: Secret
    var current: Secret
    var published: Public

    function View(): Keys
      reads this
    {
      Keys(prev, current, published)
    }

    constructor (p: Primitives, first: Secret)
      ensures View() == Registered(p, first)
    {
      published := p.publicOf(first);
      prev, current := first, first;
    }

    method StoreLocally(newKey: Secret)
      modifies this`prev, this`current
      ensures prev == old(current) && current == newKey
    {
      prev, current := current, newKey;
    }

    /** Each fallible step in its order: everything before the store, the store, the publish as the server does or
        does not apply it, and its success reply, which may be lost. */
    method RotateOnce(p: Primitives, ready: bool, newKey: Secret, applied: bool, replied: bool) returns (ok: bool)
      requires replied ==> applied
      modifies this
      ensures View() == Rotate(p, old(View()), if ready then Stored(newKey, applied) else Aborted)
      ensures ok == (ready && replied) && (ok ==> published == p.publicOf(current))
    {
      if !ready {
        return false;
      }
      StoreLocally(newKey);
      if applied {
        published := p.publicOf(newKey);
      }
      return replied;
    }

    method Receive(p: Primitives, m: Message) returns (r: Result<Bytes, Error>)
      ensures r == Received(p, View(), m)
    {
      r := DecryptBytes(p, m, current);
      if r.Err? {
        r := DecryptBytes(p, m, prev);
      }
    }
  }

  // ---------- Whole runs ----------

  function Run(p: Primitives, first: Secret, attempts: seq<Attempt>): Keys {
    if attempts == [] then Registered(p, first)
    else Rotate(p, Run(p, first, attempts[..|attempts| - 1]), attempts[|attempts| - 1])
  }

  /** Every key this device ever stored, oldest first. */
  function History(first: Secret, attempts: seq<Attempt>): (keys: seq<Secret>)
    ensures |keys| == 1 + Stores(attempts)
  {
    if attempts == [] then [first]
    else
      var before, last := History(first, attempts[..|attempts| - 1]), attempts[|attempts| - 1];
      if last.Stored? then before + [last.key] else before
  }

  function Stores(attempts: seq<Attempt>): nat {
    if attempts == [] then 0
    else Stores(attempts[..|attempts| - 1]) + if attempts[|attempts| - 1].Stored? then 1 else 0
  }

  /** Keys stored since the last one that was published. */
  function Unpublished(attempts: seq<Attempt>): (n: nat)
    ensures n <= Stores(attempts)
  {
    if attempts == [] then 0
    else
      var before := Unpublished(attempts[..|attempts| - 1]);
      match attempts[|attempts| - 1]
      case Aborted => before
      case Stored(_, published) => if published then 0 else before + 1
  }

  /** The device still has the secret of `key`. */
  predicate Holds(p: Primitives, k: Keys, key: Public) {
    p.publicOf(k.current) == key || p.publicOf(k.prev) == key
  }

  ghost predicate Fresh(p: Primitives, keys: seq<Secret>) {
    forall i, j :: 0 <= i < j < |keys| ==> p.publicOf(keys[i]) != p.publicOf(keys[j])
  }

  /** The stored keys are the last two of the history, and the server's is the last that was published. */
  lemma {:induction false} RunFollowsHistory(p: Primitives, first: Secret, attempts: seq<Attempt>)
    ensures var k, keys := Run(p, first, attempts), History(first, attempts);
            var n := |keys|;
            && k.current == keys[n - 1]
            && k.prev == keys[if n == 1 then 0 else n - 2]
            && k.published == p.publicOf(keys[n - 1 - Unpublished(attempts)])
    decreases |attempts|
  {
    if attempts != [] {
      RunFollowsHistory(p, first, attempts[..|attempts| - 1]);
    }
  }

  lemma {:induction false} HistoryGrows(first: Secret, before: seq<Attempt>, after: seq<Attempt>)
    ensures History(first, before) <= History(first, before + after)
    ensures Stores(before + after) == Stores(before) + Stores(after)
    decreases |after|
  {
    if after == [] {
      assert before + after == before;
    } else {
      var front, last := after[..|after| - 1], after[|after| - 1];
      HistoryGrows(first, before, front);
      var all := before + after;
      assert all[..|all| - 1] == before + front && all[|all| - 1] == last;
    }
  }

  /** A key of the history is still held exactly if at most one was stored after it. */
  lemma HeldIff(p: Primitives, first: Secret, attempts: seq<Attempt>, i: nat)
    requires Fresh(p, History(first, attempts))
    requires i < |History(first, attempts)|
    ensures Holds(p, Run(p, first, attempts), p.publicOf(History(first, attempts)[i])) <==>
            i + 2 >= |History(first, attempts)|
  {
    RunFollowsHistory(p, first, attempts);
  }

  /** A stored key is readable until the second key stored after it, published or not. */
  lemma StoredKeyHeldIff(p: Primitives, first: Secret, before: seq<Attempt>, key: Secret, published: bool,
                         after: seq<Attempt>)
    requires Fresh(p, History(first, before + [Stored(key, published)] + after))
    ensures Holds(p, Run(p, first, before + [Stored(key, published)] + after), p.publicOf(key)) <==> Stores(after) <= 1
  {
    var stored := before + [Stored(key, published)];
    assert stored[..|stored| - 1] == before;
    HistoryGrows(first, stored, after);
    HeldIff(p, first, stored + after, Stores(stored));
  }

  /** The key the server handed out after `before` is still held after `after` exactly if at most one key was stored
      past it. */
  lemma PublishedHeldIff(p: Primitives, first: Secret, before: seq<Attempt>, after: seq<Attempt>)
    requires Fresh(p, History(first, before + after))
    ensures Holds(p, Run(p, first, before + after), Run(p, first, before).published) <==>
            Unpublished(before) + Stores(after) <= 1
  {
    PublishedInHistory(p, first, before, after);
    HeldIff(p, first, before + after, Stores(before) - Unpublished(before));
  }

  lemma PublishedInHistory(p: Primitives, first: Secret, before: seq<Attempt>, after: seq<Attempt>)
    ensures Stores(before + after) == Stores(before) + Stores(after)
    ensures Run(p, first, before).published
            == p.publicOf(History(first, before + after)[Stores(before) - Unpublished(before)])
  {
    RunFollowsHistory(p, first, before);
    HistoryGrows(first, before, after);
  }

  predicate AllPublished(attempts: seq<Attempt>) {
    forall a | a in attempts :: a.Stored? ==> a.published
  }

  /** While publishes succeed the published key is held, also between the store and the publish of a rotation. */
  lemma {:induction false} HeldThroughout(p: Primitives, first: Secret, attempts: seq<Attempt>, newKey: Secret)
    requires AllPublished(attempts)
    ensures Unpublished(attempts) == 0
    ensures var k := Run(p, first, attempts);
            Holds(p, k, k.published) && Holds(p, Rotate(p, k, Stored(newKey, false)), k.published)
    decreases |attempts|
  {
    if attempts != [] {
      HeldThroughout(p, first, attempts[..|attempts| - 1], newKey);
    }
    RunFollowsHistory(p, first, attempts);
  }

  // ---------- Messages ----------

  /** A receiver reads the plaintext or nothing, and reads it exactly if a stored key is a recipient. */
  lemma ReceivedIff(p: Primitives, k: Keys, esk: Secret, key: Key, plaintext: Bytes, recipients: seq<Public>)
    requires Lawful(p) && Separating(p)
    requires Encrypted(p, esk, key, plaintext, recipients).Ok?
    ensures var r := Received(p, k, Encrypted(p, esk, key, plaintext, recipients).value);
            && (r == Ok(plaintext) || r.Err?)
            && (r.Ok? <==> p.publicOf(k.current) in recipients || p.publicOf(k.prev) in recipients)
  {
    OnlyRecipientsRead(p, esk, key, plaintext, recipients, k.current);
    OnlyRecipientsRead(p, esk, key, plaintext, recipients, k.prev);
    DecryptsIff(p, esk, key, plaintext, recipients, k.current);
    DecryptsIff(p, esk, key, plaintext, recipients, k.prev);
  }

  /** A message encrypted to the key the server handed out, and to no other key of this device, is read after any
      further attempts exactly if at most one key was stored past that key. */
  lemma DirectMessageReadIff(p: Primitives, first: Secret, before: seq<Attempt>, after: seq<Attempt>,
                             esk: Secret, key: Key, plaintext: Bytes, recipients: seq<Public>)
    requires Lawful(p) && Separating(p) && Fresh(p, History(first, before + after))
    requires forall i | 0 <= i < |recipients| :: p.dh(esk, recipients[i]).Some?
    requires Run(p, first, before).published in recipients
    requires forall s :: s in History(first, before + after) && p.publicOf(s) in recipients ==>
               p.publicOf(s) == Run(p, first, before).published
    ensures Encrypted(p, esk, key, plaintext, recipients).Ok?
    ensures var r := Received(p, Run(p, first, before + after), Encrypted(p, esk, key, plaintext, recipients).value);
            if Unpublished(before) + Stores(after) <= 1 then r == Ok(plaintext) else r.Err?
  {
    var k := Run(p, first, before + after);
    EncryptsIff(p, esk, key, plaintext, recipients);
    ReceivedIff(p, k, esk, key, plaintext, recipients);
    PublishedHeldIff(p, first, before, after);
    RunFollowsHistory(p, first, before + after);
    assert k.current in History(first, before + after) && k.prev in History(first, before + after);
  }

  /** After two rotations in a row whose publishes failed, a message to the key the server still hands out is lost. */
  lemma TwoFailedPublishesLoseMessages(p: Primitives, first: Secret, second: Secret, third: Secret,
                                       esk: Secret, key: Key, plaintext: Bytes)
    requires Lawful(p) && Separating(p) && Fresh(p, [first, second, third])
    requires p.dh(esk, p.publicOf(first)).Some?
    ensures Encrypted(p, esk, key, plaintext, [p.publicOf(first)]).Ok?
    ensures var k := Run(p, first, [Stored(second, false), Stored(third, false)]);
            && k.published == p.publicOf(first)
            && Received(p, k, Encrypted(p, esk, key, plaintext, [k.published]).value).Err?
  {
    var attempts := [Stored(second, false), Stored(third, false)];
    EncryptsIff(p, esk, key, plaintext, [p.publicOf(first)]);
    var one := attempts[..1];
    assert one == [Stored(second, false)] && one[..0] == [];
    assert Run(p, first, one) == Rotate(p, Run(p, first, one[..0]), Stored(second, false));
    assert Run(p, first, attempts) == Rotate(p, Run(p, first, one), Stored(third, false));
    var k := Run(p, first, attempts);
    ReceivedIff(p, k, esk, key, plaintext, [p.publicOf(first)]);
    var keys := [first, second, third];
    assert p.publicOf(keys[0]) != p.publicOf(keys[1]) && p.publicOf(keys[0]) != p.publicOf(keys[2]);
  }
}
