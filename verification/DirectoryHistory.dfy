/** Directory entries: owner-signed, hash-linked update histories and how they are verified. */
module DirectoryHistory {
  import opened Common

  datatype PublicKey = PublicKey(id: nat)
  datatype Signature = Signature(id: nat)
  datatype Blob = Blob(kind: string, inner: seq<nat>)

  /** Hashes as free constructors: digests of different values differ and none is the zero hash. `Other`
      stands for every byte string that is no digest. */
  datatype Hash =
    | Zero
    | OfUpdate(update: Update)
    | OfHeader(header: Header)
    | OfTree(tree: map<string, seq<Update>>)
    | Other(id: nat)

  datatype UpdateBody = AddOwner(pk: PublicKey) | DelOwner(pk: PublicKey) | Content(blob: Blob)
  datatype Update = Update(prev: Hash, body: UpdateBody, signature: Signature)
  datatype Header = Header(prev: Hash, root: Hash, time: nat)

  datatype HistoryError = NoOwners | InvalidSignature | InvalidPrevHash

  /** Whether an update's signature verifies under a key. Nothing is assumed of it. */
  type Verifier = (PublicKey, Update) -> bool

  // ---------- Verification as a fold ----------

  /** What verification has learned from a prefix: the owners in order of addition and the hash to link to. */
  datatype Progress = Progress(owners: seq<PublicKey>, prev: Hash)

  function Remove(owners: seq<PublicKey>, pk: PublicKey): (r: seq<PublicKey>)
    ensures forall o :: o in r <==> o in owners && o != pk
    ensures NoDuplicates(owners) ==> NoDuplicates(r)
  {
    if owners == [] then []
    else if owners[0] == pk then Remove(owners[1..], pk)
    else
      var rest := Remove(owners[1..], pk);
      assert NoDuplicates(owners) ==> NoDuplicates(owners[1..]) && owners[0] !in owners[1..];
      assert owners[0] in rest ==> owners[0] in owners[1..];
      [owners[0]] + rest
  }

  function NextOwners(owners: seq<PublicKey>, body: UpdateBody): seq<PublicKey> {
    match body
    case AddOwner(pk) => if pk in owners then owners else owners + [pk]
    case DelOwner(pk) => Remove(owners, pk)
    case Content(_) => owners
  }

  function Check(verifies: Verifier, p: Progress, u: Update): Result<Progress, HistoryError> {
    if u.prev != p.prev then Err(InvalidPrevHash)
    else if p.owners == [] && !u.body.AddOwner? then Err(NoOwners)
    else if p.owners == [] && !verifies(u.body.pk, u) then Err(InvalidSignature)
    else if p.owners != [] && !exists o | o in p.owners :: verifies(o, u) then Err(InvalidSignature)
    else Ok(Progress(NextOwners(p.owners, u.body), OfUpdate(u)))
  }

  function Fold(verifies: Verifier, history: seq<Update>): Result<Progress, HistoryError> {
    if history == [] then Ok(Progress([], Zero))
    else
      var n := |history| - 1;
      match Fold(verifies, history[..n])
      case Err(e) => Err(e)
      case Ok(p) => Check(verifies, p, history[n])
  }

  predicate Verified(verifies: Verifier, history: seq<Update>) {
    Fold(verifies, history).Ok?
  }

  function LastHash(history: seq<Update>): Hash {
    if history == [] then Zero else OfUpdate(history[|history| - 1])
  }

  /** A failing update fails every extension, with the same error. */
  lemma {:induction false} FoldError(verifies: Verifier, history: seq<Update>, i: nat)
    requires i <= |history| && Fold(verifies, history[..i]).Err?
    ensures Fold(verifies, history) == Fold(verifies, history[..i])
    decreases |history|
  {
    if i < |history| {
      var n := |history| - 1;
      assert history[..n][..i] == history[..i];
      FoldError(verifies, history[..n], i);
    } else {
      assert history[..i] == history;
    }
  }

  /** One turn of the loop: the check at position `i` decides the next prefix, and a failure decides the whole. */
  lemma FoldStep(verifies: Verifier, history: seq<Update>, i: nat)
    requires i < |history| && Fold(verifies, history[..i]).Ok?
    ensures Fold(verifies, history[..i + 1]) == Check(verifies, Fold(verifies, history[..i]).value, history[i])
    ensures Fold(verifies, history[..i + 1]).Err? ==> Fold(verifies, history) == Fold(verifies, history[..i + 1])
  {
    assert history[..i + 1][..i] == history[..i];
    if Fold(verifies, history[..i + 1]).Err? {
      FoldError(verifies, history, i + 1);
    }
  }

  /** The loop over a history, with its early returns. */
  method VerifyHistory(verifies: Verifier, history: seq<Update>) returns (r: Result<(), HistoryError>)
    ensures r.Ok? == Verified(verifies, history)
    ensures r.Err? ==> Fold(verifies, history) == Err(r.error)
  {
    var owners: seq<PublicKey> := [];
    var prev: Option<Hash> := None;
    for i := 0 to |history|
      invariant Fold(verifies, history[..i]) == Ok(Progress(owners, if prev.Some? then prev.value else Zero))
    {
      var update := history[i];
      FoldStep(verifies, history, i);
      match prev {
        case Some(expected) =>
          if update.prev != expected {
            return Err(InvalidPrevHash);
          }
        case None =>
          if update.prev != Zero {
            return Err(InvalidPrevHash);
          }
      }
      var valid, canVerify := false, false;
      if owners == [] {
        match update.body {
          case AddOwner(pk) => valid, canVerify := verifies(pk, update), true;
          case _ =>
        }
      } else {
        valid, canVerify := exists o | o in owners :: verifies(o, update), true;
      }
      if !valid {
        return Err(if canVerify then InvalidSignature else NoOwners);
      }
      match update.body {
        case AddOwner(pk) =>
          if pk !in owners {
            owners := owners + [pk];
          }
        case DelOwner(pk) => owners := Remove(owners, pk);
        case Content(_) =>
      }
      prev := Some(OfUpdate(update));
    }
    assert history[..|history|] == history;
    return Ok(());
  }

  // ---------- An independent definition ----------

  /** `pk` was added before position `i` and not removed since. */
  ghost predicate OwnerAt(history: seq<Update>, i: nat, pk: PublicKey)
    requires i <= |history|
  {
    exists j | 0 <= j < i ::
      history[j].body == AddOwner(pk) && forall k | j < k < i :: history[k].body != DelOwner(pk)
  }

  ghost predicate Authorized(verifies: Verifier, history: seq<Update>, i: nat)
    requires i < |history|
  {
    if exists pk :: OwnerAt(history, i, pk) then exists pk :: OwnerAt(history, i, pk) && verifies(pk, history[i])
    else history[i].body.AddOwner? && verifies(history[i].body.pk, history[i])
  }

  ghost predicate Linked(history: seq<Update>) {
    forall i | 0 <= i < |history| :: history[i].prev == LastHash(history[..i])
  }

  predicate NoDuplicates(s: seq<PublicKey>) {
    forall i, j | 0 <= i < j < |s| :: s[i] != s[j]
  }

  lemma OwnerAtStep(history: seq<Update>, pk: PublicKey)
    requires history != []
    ensures var n := |history| - 1;
            OwnerAt(history, |history|, pk)
            <==> history[n].body == AddOwner(pk) || (OwnerAt(history, n, pk) && history[n].body != DelOwner(pk))
  {
    var n := |history| - 1;
    if OwnerAt(history, |history|, pk) && history[n].body != AddOwner(pk) {
      var j :| 0 <= j < |history| && history[j].body == AddOwner(pk)
               && forall k | j < k < |history| :: history[k].body != DelOwner(pk);
      assert j < n;
    }
  }

  lemma OwnerAtPrefix(history: seq<Update>, i: nat, n: nat, pk: PublicKey)
    requires i <= n <= |history|
    ensures OwnerAt(history[..n], i, pk) <==> OwnerAt(history, i, pk)
  {
    if OwnerAt(history, i, pk) {
      var j :| 0 <= j < i && history[j].body == AddOwner(pk) && forall k | j < k < i :: history[k].body != DelOwner(pk);
      assert history[..n][j].body == AddOwner(pk);
    }
  }

  /** The folded owner list holds exactly the current owners, once each, and the link is the last hash. */
  lemma {:induction false} FoldOwners(verifies: Verifier, history: seq<Update>)
    requires Verified(verifies, history)
    ensures var p := Fold(verifies, history).value;
            && p.prev == LastHash(history) && NoDuplicates(p.owners)
            && forall pk :: pk in p.owners <==> OwnerAt(history, |history|, pk)
    decreases |history|
  {
    if history != [] {
      var n := |history| - 1;
      FoldOwners(verifies, history[..n]);
      forall pk ensures pk in Fold(verifies, history).value.owners <==> OwnerAt(history, |history|, pk) {
        OwnerAtStep(history, pk);
        OwnerAtPrefix(history, n, n, pk);
      }
    }
  }

  lemma AuthorizedPrefix(verifies: Verifier, history: seq<Update>, i: nat, n: nat)
    requires i < n <= |history|
    ensures Authorized(verifies, history[..n], i) <==> Authorized(verifies, history, i)
  {
    forall pk ensures OwnerAt(history[..n], i, pk) <==> OwnerAt(history, i, pk) {
      OwnerAtPrefix(history, i, n, pk);
    }
  }

  lemma CheckMeansAuthorized(verifies: Verifier, history: seq<Update>)
    requires history != [] && Verified(verifies, history[..|history| - 1])
    ensures var n := |history| - 1;
            Verified(verifies, history)
            <==> history[n].prev == LastHash(history[..n]) && Authorized(verifies, history, n)
  {
    var n := |history| - 1;
    var p := Fold(verifies, history[..n]).value;
    FoldOwners(verifies, history[..n]);
    forall pk ensures pk in p.owners <==> OwnerAt(history, n, pk) {
      OwnerAtPrefix(history, n, n, pk);
    }
    if p.owners != [] {
      assert OwnerAt(history, n, p.owners[0]);
    }
  }

  ghost predicate AllAuthorized(verifies: Verifier, history: seq<Update>) {
    forall i | 0 <= i < |history| :: Authorized(verifies, history, i)
  }

  lemma LinkedStep(history: seq<Update>)
    requires history != []
    ensures var n := |history| - 1;
            Linked(history) <==> Linked(history[..n]) && history[n].prev == LastHash(history[..n])
  {
    var front := history[..|history| - 1];
    assert forall i | 0 <= i < |front| :: front[..i] == history[..i] && front[i] == history[i];
  }

  lemma AuthorizedStep(verifies: Verifier, history: seq<Update>)
    requires history != []
    ensures var n := |history| - 1;
            AllAuthorized(verifies, history)
            <==> AllAuthorized(verifies, history[..n]) && Authorized(verifies, history, n)
  {
    var n := |history| - 1;
    forall i | 0 <= i < n ensures Authorized(verifies, history[..n], i) <==> Authorized(verifies, history, i) {
      AuthorizedPrefix(verifies, history, i, n);
    }
  }

  /** A history verifies exactly when every update links to its predecessor and is signed by a current owner,
      or, while there is none, adds an owner and is signed by that owner. */
  lemma {:induction false} VerifiedIff(verifies: Verifier, history: seq<Update>)
    ensures Verified(verifies, history) <==> Linked(history) && AllAuthorized(verifies, history)
    decreases |history|
  {
    if history != [] {
      var front := history[..|history| - 1];
      VerifiedIff(verifies, front);
      LinkedStep(history);
      AuthorizedStep(verifies, history);
      if Verified(verifies, front) {
        CheckMeansAuthorized(verifies, history);
      }
    }
  }

  /** What is wrong with update `i`, by the meaning of verification: its link, or, if there is no owner and it adds
      none, that, or its signature. */
  ghost predicate FailsWith(verifies: Verifier, history: seq<Update>, i: nat, error: HistoryError)
    requires i < |history|
  {
    if history[i].prev != LastHash(history[..i]) then error == InvalidPrevHash
    else if (forall pk :: !OwnerAt(history, i, pk)) && !history[i].body.AddOwner? then error == NoOwners
    else error == InvalidSignature && !Authorized(verifies, history, i)
  }

  lemma CheckErrorMeans(verifies: Verifier, history: seq<Update>, i: nat)
    requires i < |history| && Verified(verifies, history[..i]) && !Verified(verifies, history[..i + 1])
    ensures FailsWith(verifies, history, i, Fold(verifies, history[..i + 1]).error)
  {
    var p := Fold(verifies, history[..i]).value;
    FoldStep(verifies, history, i);
    FoldOwners(verifies, history[..i]);
    forall pk ensures pk in p.owners <==> OwnerAt(history, i, pk) {
      OwnerAtPrefix(history, i, i, pk);
    }
    if p.owners != [] {
      assert OwnerAt(history, i, p.owners[0]);
    }
  }

  /** A history that does not verify fails at its first bad update, with what is wrong with that one. */
  lemma {:induction false} FirstErrorDecides(verifies: Verifier, history: seq<Update>) returns (i: nat)
    requires !Verified(verifies, history)
    ensures i < |history| && Verified(verifies, history[..i]) && !Verified(verifies, history[..i + 1])
    ensures FailsWith(verifies, history, i, Fold(verifies, history).error)
    decreases |history|
  {
    var n := |history| - 1;
    assert history[..n + 1] == history;
    if Verified(verifies, history[..n]) {
      i := n;
      CheckErrorMeans(verifies, history, n);
    } else {
      i := FirstErrorDecides(verifies, history[..n]);
      assert history[..n][..i] == history[..i] && history[..n][..i + 1] == history[..i + 1];
      FoldError(verifies, history, i + 1);
      CheckErrorMeans(verifies, history, i);
    }
  }

  /** Every prefix of a verified history verifies. */
  lemma {:induction false} VerifiedPrefix(verifies: Verifier, history: seq<Update>, i: nat)
    requires Verified(verifies, history) && i <= |history|
    ensures Verified(verifies, history[..i])
  {
    if !Verified(verifies, history[..i]) {
      FoldError(verifies, history, i);
    }
  }

  /** No update occurs twice in a verified history. */
  lemma {:induction false} VerifiedHasNoRepeat(verifies: Verifier, history: seq<Update>, i: nat, j: nat)
    requires Verified(verifies, history) && i < j < |history|
    ensures history[i] != history[j]
    decreases i
  {
    VerifiedIff(verifies, history);
    if history[i] == history[j] {
      assert LastHash(history[..i]) == LastHash(history[..j]);
      if i > 0 {
        VerifiedHasNoRepeat(verifies, history, i - 1, j - 1);
      }
    }
  }

  /** Two verified histories, one a prefix of the other, with the same last hash are the same. */
  lemma SameLastHash(verifies: Verifier, short: seq<Update>, long: seq<Update>)
    requires Verified(verifies, long) && short <= long && LastHash(short) == LastHash(long)
    ensures short == long
  {
    if |short| < |long| && short != [] {
      VerifiedHasNoRepeat(verifies, long, |short| - 1, |long| - 1);
    }
  }

  // ---------- Listings and client-made updates ----------

  datatype Listing = Listing(latest: Option<Blob>, owners: seq<PublicKey>)

  /** `latest` is the content of the last content update. */
  ghost predicate IsLatest(history: seq<Update>, latest: Option<Blob>) {
    if latest.None? then forall i | 0 <= i < |history| :: !history[i].body.Content?
    else exists i | 0 <= i < |history| ::
           history[i].body == Content(latest.value) && forall j | i < j < |history| :: !history[j].body.Content?
  }

  /** The listing repeats the ownership replay; its owners are the ones verification ends with. */
  method BuildListing(verifies: Verifier, history: seq<Update>) returns (r: Result<Listing, HistoryError>)
    ensures r.Ok? == Verified(verifies, history)
    ensures r.Err? ==> Fold(verifies, history) == Err(r.error)
    ensures r.Ok? ==> r.value.owners == Fold(verifies, history).value.owners && IsLatest(history, r.value.latest)
  {
    var verified := VerifyHistory(verifies, history);
    if verified.Err? {
      return Err(verified.error);
    }
    var owners: seq<PublicKey> := [];
    var latest: Option<Blob> := None;
    for i := 0 to |history|
      invariant Verified(verifies, history[..i]) && Fold(verifies, history[..i]).value.owners == owners
      invariant IsLatest(history[..i], latest)
    {
      ListingStep(verifies, history, i);
      LatestStep(history[..i], history[i], latest);
      match history[i].body {
        case AddOwner(pk) =>
          if pk !in owners {
            owners := owners + [pk];
          }
        case DelOwner(pk) => owners := Remove(owners, pk);
        case Content(blob) => latest := Some(blob);
      }
    }
    assert history[..|history|] == history;
    return Ok(Listing(latest, owners));
  }

  lemma ListingStep(verifies: Verifier, history: seq<Update>, i: nat)
    requires Verified(verifies, history) && i < |history|
    ensures Verified(verifies, history[..i]) && Verified(verifies, history[..i + 1])
    ensures Fold(verifies, history[..i + 1]).value.owners
            == NextOwners(Fold(verifies, history[..i]).value.owners, history[i].body)
    ensures history[..i + 1] == history[..i] + [history[i]]
  {
    VerifiedPrefix(verifies, history, i);
    VerifiedPrefix(verifies, history, i + 1);
    FoldStep(verifies, history, i);
  }

  lemma LatestStep(history: seq<Update>, u: Update, latest: Option<Blob>)
    requires IsLatest(history, latest)
    ensures IsLatest(history + [u], if u.body.Content? then Some(u.body.blob) else latest)
  {
    var h := history + [u];
    if u.body.Content? {
      assert h[|history|].body == Content(u.body.blob);
    } else if latest.Some? {
      var i :| 0 <= i < |history| && history[i].body == Content(latest.value)
               && forall j | i < j < |history| :: !history[j].body.Content?;
      assert h[i].body == Content(latest.value);
    }
  }

  /** An update a client signs against the history it has read extends that history exactly when the signing
      key is authorized: a current owner's, or, while there are none, the key being added. */
  lemma ClientUpdateAccepted(verifies: Verifier, history: seq<Update>, body: UpdateBody, signature: Signature,
                             signer: PublicKey)
    requires Verified(verifies, history)
    requires forall pk :: verifies(pk, Update(LastHash(history), body, signature)) <==> pk == signer
    ensures Verified(verifies, history + [Update(LastHash(history), body, signature)])
            <==> if exists pk :: OwnerAt(history, |history|, pk) then OwnerAt(history, |history|, signer)
                 else body == AddOwner(signer)
  {
    var u := Update(LastHash(history), body, signature);
    var longer := history + [u];
    var n := |history|;
    assert longer[..n] == history;
    CheckMeansAuthorized(verifies, longer);
    forall pk ensures OwnerAt(longer, n, pk) <==> OwnerAt(history, n, pk) {
      OwnerAtPrefix(longer, n, n, pk);
    }
  }
}
