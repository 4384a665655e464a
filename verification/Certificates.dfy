/** Device certificates and the verification of certificate chains. */
module Certificates {

  datatype PublicKey = PublicKey(id: nat)
  datatype Secret = Secret(id: nat)
  datatype KeyHash = KeyHash(id: nat)
  datatype Signature = Signature(id: nat)

  /** What a certificate signature covers. */
  datatype Body = Body(pk: PublicKey, expiry: nat, canIssue: bool)

  datatype Certificate = Certificate(body: Body, signature: Signature) {
    function Pk(): PublicKey { body.pk }
  }

  /** A chain for the device certificate `leaf`; the order of `ancestors` is free. */
  datatype Chain = Chain(ancestors: seq<Certificate>, leaf: Certificate) {
    function All(): seq<Certificate> { ancestors + [leaf] }
  }

  /** The primitives, left abstract: nothing is assumed of them unless a lemma says so. */
  datatype Scheme = Scheme(
    keyHash: PublicKey -> KeyHash,
    publicOf: Secret -> PublicKey,
    sign: (Secret, Body) -> Signature,
    verifies: (PublicKey, Body, Signature) -> bool)
  {
    ghost predicate Correct() {
      forall sk: Secret, b: Body :: verifies(publicOf(sk), b, sign(sk, b))
    }
  }

  /** One verification: the primitives, the trusted root key hash and the current time. */
  datatype Context = Context(scheme: Scheme, root: KeyHash, now: nat) {
    predicate IsRoot(c: Certificate) { scheme.keyHash(c.Pk()) == root }
    predicate Live(c: Certificate) { c.body.expiry > now }
    predicate Issuing(c: Certificate) { Live(c) && c.body.canIssue }
    predicate SignedBy(c: Certificate, pk: PublicKey) { scheme.verifies(pk, c.body, c.signature) }
    predicate SelfSigned(c: Certificate) { SignedBy(c, c.Pk()) }
  }

  datatype Outcome = Accepted | BadRootSignature | NoTrustedRoot | Unverifiable | LeafNotAuthenticated

  function Issue(scheme: Scheme, issuer: Secret, body: Body): Certificate {
    Certificate(body, scheme.sign(issuer, body))
  }

  // ---------- What a chain means ----------

  /** `path` leads from a live issuing root through live issuing certificates, each signed by its predecessor. */
  ghost predicate IssuerPath(ctx: Context, certs: set<Certificate>, path: seq<Certificate>) {
    && path != []
    && (forall i | 0 <= i < |path| :: path[i] in certs && ctx.Issuing(path[i]))
    && ctx.IsRoot(path[0])
    && (forall i | 0 < i < |path| :: !ctx.IsRoot(path[i]) && ctx.SignedBy(path[i], path[i - 1].Pk()))
  }

  /** Membership in the least signer set: some issuer path ends in a certificate for `pk`. */
  ghost predicate TrustedSigner(ctx: Context, certs: set<Certificate>, pk: PublicKey) {
    exists path: seq<Certificate> :: IssuerPath(ctx, certs, path) && path[|path| - 1].Pk() == pk
  }

  ghost predicate Vouched(ctx: Context, certs: set<Certificate>, c: Certificate) {
    if ctx.IsRoot(c) then ctx.SelfSigned(c)
    else exists pk :: TrustedSigner(ctx, certs, pk) && ctx.SignedBy(c, pk)
  }

  function Elements(s: seq<Certificate>): set<Certificate> { set c | c in s }

  ghost predicate RootsSelfSigned(ctx: Context, certs: set<Certificate>) {
    forall c | c in certs && ctx.IsRoot(c) :: ctx.SelfSigned(c)
  }

  ghost predicate HasLiveRoot(ctx: Context, certs: set<Certificate>) {
    exists c | c in certs :: ctx.IsRoot(c) && ctx.Live(c)
  }

  ghost predicate AllVouched(ctx: Context, certs: set<Certificate>) {
    forall c | c in certs :: Vouched(ctx, certs, c)
  }

  /** The verdict on a set of certificates and a leaf, with the error the first failing condition gives. */
  ghost function VerdictOn(ctx: Context, certs: set<Certificate>, leaf: Certificate): Outcome {
    if !RootsSelfSigned(ctx, certs) then BadRootSignature
    else if !HasLiveRoot(ctx, certs) then NoTrustedRoot
    else if !AllVouched(ctx, certs) then Unverifiable
    else if !ctx.Live(leaf) then LeafNotAuthenticated
    else Accepted
  }

  ghost function Verdict(ctx: Context, chain: Chain): Outcome {
    VerdictOn(ctx, Elements(chain.All()), chain.leaf)
  }

  // ---------- Growing the signer set ----------

  lemma RootIsTrusted(ctx: Context, certs: set<Certificate>, c: Certificate)
    requires c in certs && ctx.IsRoot(c) && ctx.Issuing(c)
    ensures TrustedSigner(ctx, certs, c.Pk())
  {
    assert IssuerPath(ctx, certs, [c]);
  }

  lemma IssuedIsTrusted(ctx: Context, certs: set<Certificate>, issuer: PublicKey, c: Certificate)
    requires TrustedSigner(ctx, certs, issuer)
    requires c in certs && !ctx.IsRoot(c) && ctx.Issuing(c) && ctx.SignedBy(c, issuer)
    ensures TrustedSigner(ctx, certs, c.Pk())
  {
    var path: seq<Certificate> :| IssuerPath(ctx, certs, path) && path[|path| - 1].Pk() == issuer;
    var longer := path + [c];
    assert forall i | 0 < i < |longer| :: !ctx.IsRoot(longer[i]) && ctx.SignedBy(longer[i], longer[i - 1].Pk());
    assert IssuerPath(ctx, certs, longer);
    assert longer[|longer| - 1].Pk() == c.Pk();
  }

  /** A signer set closed under issuing holds the key of every certificate on an issuer path. */
  lemma {:induction false} ClosedSetHoldsPath(ctx: Context, certs: set<Certificate>, signers: seq<PublicKey>,
                                              path: seq<Certificate>)
    requires IssuerPath(ctx, certs, path)
    requires forall c | c in certs && ctx.IsRoot(c) && ctx.Issuing(c) :: c.Pk() in signers
    requires forall c, pk | c in certs && !ctx.IsRoot(c) && ctx.Issuing(c) && pk in signers && ctx.SignedBy(c, pk) ::
               c.Pk() in signers
    ensures path[|path| - 1].Pk() in signers
  {
    if |path| > 1 {
      var shorter := path[..|path| - 1];
      assert IssuerPath(ctx, certs, shorter);
      ClosedSetHoldsPath(ctx, certs, signers, shorter);
      assert ctx.SignedBy(path[|path| - 1], shorter[|shorter| - 1].Pk());
    }
  }

  lemma ClosedSetHoldsTrusted(ctx: Context, certs: set<Certificate>, signers: seq<PublicKey>)
    requires forall c | c in certs && ctx.IsRoot(c) && ctx.Issuing(c) :: c.Pk() in signers
    requires forall c, pk | c in certs && !ctx.IsRoot(c) && ctx.Issuing(c) && pk in signers && ctx.SignedBy(c, pk) ::
               c.Pk() in signers
    ensures forall pk | TrustedSigner(ctx, certs, pk) :: pk in signers
  {
    forall pk | TrustedSigner(ctx, certs, pk) ensures pk in signers {
      var path: seq<Certificate> :| IssuerPath(ctx, certs, path) && path[|path| - 1].Pk() == pk;
      ClosedSetHoldsPath(ctx, certs, signers, path);
    }
  }

  // ---------- The verification loop ----------

  predicate AnySigner(ctx: Context, signers: seq<PublicKey>, c: Certificate) {
    exists pk | pk in signers :: ctx.SignedBy(c, pk)
  }

  predicate NoneSigned(ctx: Context, signers: seq<PublicKey>, pending: seq<Certificate>) {
    forall c | c in pending :: !AnySigner(ctx, signers, c)
  }

  function Without(s: seq<Certificate>, i: nat): (r: seq<Certificate>)
    requires i < |s|
    ensures |r| == |s| - 1
    ensures forall c :: c in s <==> c == s[i] || c in r
  {
    assert forall k | i < k < |s| :: s[k] == s[i + 1..][k - i - 1];
    s[..i] + s[i + 1..]
  }

  /** The root pass: removes every root certificate from `pending`. `done` are the certificates removed. */
  method TakeRoots(ctx: Context, chain: Chain)
    returns (ok: bool, pending: seq<Certificate>, signers: seq<PublicKey>, rootFound: bool, leafVerified: bool,
             ghost done: set<Certificate>)
    ensures ok == RootsSelfSigned(ctx, Elements(chain.All()))
    ensures ok ==> Elements(pending) + done == Elements(chain.All())
    ensures ok ==> (forall c | c in pending :: !ctx.IsRoot(c)) && (forall c | c in done :: ctx.IsRoot(c))
    ensures ok ==> rootFound == HasLiveRoot(ctx, Elements(chain.All()))
    ensures ok ==> forall pk :: pk in signers <==> exists c | c in done :: ctx.Issuing(c) && c.Pk() == pk
    ensures ok ==> leafVerified == (chain.leaf in done && ctx.Live(chain.leaf))
  {
    pending, signers, rootFound, leafVerified, done := chain.All(), [], false, false, {};
    var idx := 0;
    while idx < |pending|
      invariant idx <= |pending|
      invariant Elements(pending) + done == Elements(chain.All())
      invariant forall c | c in pending[..idx] :: !ctx.IsRoot(c)
      invariant forall c | c in done :: ctx.IsRoot(c) && ctx.SelfSigned(c)
      invariant rootFound == exists c | c in done :: ctx.Live(c)
      invariant forall pk :: pk in signers <==> exists c | c in done :: ctx.Issuing(c) && c.Pk() == pk
      invariant leafVerified == (chain.leaf in done && ctx.Live(chain.leaf))
      decreases |pending| - idx
    {
      if ctx.IsRoot(pending[idx]) {
        var cert := pending[idx];
        ghost var before := pending;
        pending := Without(pending, idx);
        assert pending[..idx] == before[..idx];
        if !ctx.SelfSigned(cert) {
          assert cert in Elements(chain.All());
          ok := false;
          return;
        }
        done := done + {cert};
        if ctx.Live(cert) {
          rootFound := true;
          if cert.body.canIssue {
            signers := signers + [cert.Pk()];
          }
          if cert == chain.leaf {
            leafVerified := true;
          }
        }
      } else {
        assert pending[..idx + 1] == pending[..idx] + [pending[idx]];
        idx := idx + 1;
      }
    }
    assert pending[..idx] == pending;
    ok := true;
  }

  /** What holds between passes: everything removed is vouched for, and the signers are trusted and closed over it. */
  ghost predicate Consistent(ctx: Context, certs: set<Certificate>, pending: seq<Certificate>,
                             done: set<Certificate>, signers: seq<PublicKey>)
  {
    && Elements(pending) + done == certs
    && (forall c | c in pending :: !ctx.IsRoot(c))
    && (forall pk | pk in signers :: TrustedSigner(ctx, certs, pk))
    && (forall c | c in done :: Vouched(ctx, certs, c) && (ctx.Issuing(c) ==> c.Pk() in signers))
  }

  lemma RemovedIsDone(pending: seq<Certificate>, done: set<Certificate>, i: nat)
    requires i < |pending|
    ensures Elements(Without(pending, i)) + (done + {pending[i]}) == Elements(pending) + done
  {
  }

  lemma ConsumeKeepsConsistent(ctx: Context, certs: set<Certificate>, pending: seq<Certificate>, done: set<Certificate>,
                               signers: seq<PublicKey>, i: nat, signers': seq<PublicKey>)
    requires Consistent(ctx, certs, pending, done, signers)
    requires i < |pending| && AnySigner(ctx, signers, pending[i])
    requires signers' == if ctx.Issuing(pending[i]) then signers + [pending[i].Pk()] else signers
    ensures Consistent(ctx, certs, Without(pending, i), done + {pending[i]}, signers')
  {
    var cert := pending[i];
    var issuer :| issuer in signers && ctx.SignedBy(cert, issuer);
    assert cert in Elements(pending);
    RemovedIsDone(pending, done, i);
    assert Vouched(ctx, certs, cert);
    forall pk | pk in signers' ensures TrustedSigner(ctx, certs, pk) {
      if pk !in signers {
        IssuedIsTrusted(ctx, certs, issuer, cert);
      }
    }
  }

  lemma SkipUnsigned(ctx: Context, signers: seq<PublicKey>, pending: seq<Certificate>, i: nat)
    requires i < |pending| && !AnySigner(ctx, signers, pending[i])
    ensures NoneSigned(ctx, signers, pending[..i]) ==> NoneSigned(ctx, signers, pending[..i + 1])
  {
    assert pending[..i + 1] == pending[..i] + [pending[i]];
  }

  /** One scan over `pending`: removes what a trusted signer signs, growing the signers as it goes. */
  method Pass(ctx: Context, ghost certs: set<Certificate>, leaf: Certificate, before: seq<Certificate>,
              ghost doneBefore: set<Certificate>, signersBefore: seq<PublicKey>, leafBefore: bool)
    returns (pending: seq<Certificate>, signers: seq<PublicKey>, leafVerified: bool, progress: bool,
             ghost done: set<Certificate>)
    requires Consistent(ctx, certs, before, doneBefore, signersBefore)
    requires leafBefore == (leaf in doneBefore && ctx.Live(leaf))
    ensures Consistent(ctx, certs, pending, done, signers)
    ensures leafVerified == (leaf in done && ctx.Live(leaf))
    ensures if progress then |pending| < |before| else |pending| <= |before| && NoneSigned(ctx, signers, pending)
  {
    pending, done, signers, leafVerified, progress := before, doneBefore, signersBefore, leafBefore, false;
    var i := 0;
    while i < |pending|
      invariant i <= |pending| <= |before|
      invariant Consistent(ctx, certs, pending, done, signers)
      invariant leafVerified == (leaf in done && ctx.Live(leaf))
      invariant progress || NoneSigned(ctx, signers, pending[..i])
      invariant progress ==> |pending| < |before|
      decreases |pending| - i
    {
      if !AnySigner(ctx, signers, pending[i]) {
        SkipUnsigned(ctx, signers, pending, i);
        i := i + 1;
        continue;
      }
      var cert := pending[i];
      ghost var next := if ctx.Issuing(cert) then signers + [cert.Pk()] else signers;
      ConsumeKeepsConsistent(ctx, certs, pending, done, signers, i, next);
      pending := Without(pending, i);
      done := done + {cert};
      if ctx.Live(cert) {
        if cert.body.canIssue {
          signers := signers + [cert.Pk()];
        }
        if cert == leaf {
          leafVerified := true;
        }
      }
      assert signers == next;
      progress := true;
    }
    assert pending[..i] == pending;
  }

  method Verify(ctx: Context, chain: Chain) returns (r: Outcome)
    ensures r == Verdict(ctx, chain)
  {
    ghost var certs := Elements(chain.All());
    var ok, pending, signers, rootFound, leafVerified, done := TakeRoots(ctx, chain);
    if !ok {
      return BadRootSignature;
    }
    if !rootFound {
      return NoTrustedRoot;
    }
    forall pk | pk in signers ensures TrustedSigner(ctx, certs, pk) {
      var c :| c in done && ctx.Issuing(c) && c.Pk() == pk;
      RootIsTrusted(ctx, certs, c);
    }
    var progress := true;
    while progress && pending != []
      invariant Consistent(ctx, certs, pending, done, signers)
      invariant leafVerified == (chain.leaf in done && ctx.Live(chain.leaf))
      invariant progress || NoneSigned(ctx, signers, pending)
      decreases |pending| + (if progress then 1 else 0)
    {
      pending, signers, leafVerified, progress, done :=
        Pass(ctx, certs, chain.leaf, pending, done, signers, leafVerified);
    }
    if pending != [] {
      StuckMeansUnvouched(ctx, certs, signers, done, pending);
      return Unverifiable;
    }
    assert forall c | c in certs :: c in done;
    if !leafVerified {
      assert chain.leaf in certs;
      return LeafNotAuthenticated;
    }
    return Accepted;
  }

  /** When a pass changes nothing, what is left is not signed by any member of the least signer set. */
  lemma StuckMeansUnvouched(ctx: Context, certs: set<Certificate>, signers: seq<PublicKey>, done: set<Certificate>,
                            pending: seq<Certificate>)
    requires Consistent(ctx, certs, pending, done, signers) && pending != []
    requires NoneSigned(ctx, signers, pending)
    ensures !AllVouched(ctx, certs)
  {
    ClosedSetHoldsTrusted(ctx, certs, signers);
    assert pending[0] in certs;
  }

  // ---------- Consequences ----------

  /** The order and the multiplicity of the ancestors are irrelevant. */
  lemma VerdictIgnoresOrder(ctx: Context, a: seq<Certificate>, b: seq<Certificate>, leaf: Certificate)
    requires multiset(a) == multiset(b)
    ensures Verdict(ctx, Chain(a, leaf)) == Verdict(ctx, Chain(b, leaf))
  {
    forall c ensures c in a <==> c in b {
      assert c in a <==> c in multiset(a);
      assert c in b <==> c in multiset(b);
    }
    assert Elements(a + [leaf]) == Elements(b + [leaf]);
  }

  lemma EarlierPathStands(early: Context, late: Context, certs: set<Certificate>, pk: PublicKey)
    requires early == late.(now := early.now) && early.now <= late.now
    requires TrustedSigner(late, certs, pk)
    ensures TrustedSigner(early, certs, pk)
  {
    var path: seq<Certificate> :| IssuerPath(late, certs, path) && path[|path| - 1].Pk() == pk;
    assert IssuerPath(early, certs, path);
  }

  /** Acceptance only expires: a chain accepted now was acceptable at every earlier time. */
  lemma AcceptedEarlier(early: Context, late: Context, chain: Chain)
    requires early == late.(now := early.now) && early.now <= late.now
    requires Verdict(late, chain) == Accepted
    ensures Verdict(early, chain) == Accepted
  {
    var certs := Elements(chain.All());
    forall c | c in certs ensures Vouched(early, certs, c) {
      if !late.IsRoot(c) {
        var pk :| TrustedSigner(late, certs, pk) && late.SignedBy(c, pk);
        EarlierPathStands(early, late, certs, pk);
      }
    }
    var root :| root in certs && late.IsRoot(root) && late.Live(root);
    assert early.IsRoot(root) && early.Live(root);
  }

  /** Paths only need the certificates on them. */
  lemma LargerSetTrustsMore(ctx: Context, certs: set<Certificate>, more: set<Certificate>)
    requires certs <= more
    ensures forall pk | TrustedSigner(ctx, certs, pk) :: TrustedSigner(ctx, more, pk)
    ensures forall c | Vouched(ctx, certs, c) :: Vouched(ctx, more, c)
  {
    forall pk | TrustedSigner(ctx, certs, pk) ensures TrustedSigner(ctx, more, pk) {
      var path: seq<Certificate> :| IssuerPath(ctx, certs, path) && path[|path| - 1].Pk() == pk;
      assert IssuerPath(ctx, more, path);
    }
  }

  /** In an accepted chain a live leaf that may issue is itself a trusted signer. */
  lemma AcceptedLeafIsTrusted(ctx: Context, chain: Chain)
    requires Verdict(ctx, chain) == Accepted && chain.leaf.body.canIssue
    ensures TrustedSigner(ctx, Elements(chain.All()), chain.leaf.Pk())
  {
    var certs := Elements(chain.All());
    var leaf := chain.leaf;
    assert leaf in certs;
    if ctx.IsRoot(leaf) {
      RootIsTrusted(ctx, certs, leaf);
    } else {
      var pk :| TrustedSigner(ctx, certs, pk) && ctx.SignedBy(leaf, pk);
      IssuedIsTrusted(ctx, certs, pk, leaf);
    }
  }

  /** The chain `new_device_bundle` hands out: the issuer's chain with the new certificate as its leaf. */
  function Extend(chain: Chain, cert: Certificate): Chain {
    Chain(chain.ancestors + [chain.leaf], cert)
  }

  /** Exactly when a certificate signed by an accepted issuing leaf extends the chain to an accepted one. */
  lemma ExtendAccepted(ctx: Context, chain: Chain, cert: Certificate)
    requires Verdict(ctx, chain) == Accepted && chain.leaf.body.canIssue
    requires ctx.SignedBy(cert, chain.leaf.Pk())
    ensures Verdict(ctx, Extend(chain, cert)) == Accepted
            <==> ctx.Live(cert) && (ctx.IsRoot(cert) ==> ctx.SelfSigned(cert))
  {
    var certs := Elements(chain.All());
    assert Elements(Extend(chain, cert).All()) == certs + {cert};
    OneMoreCertificate(ctx, certs, cert);
    AcceptedLeafIsTrusted(ctx, chain);
    LargerSetTrustsMore(ctx, certs, certs + {cert});
    assert cert in certs + {cert};
  }

  /** What an added certificate does to each condition of the verdict. */
  lemma OneMoreCertificate(ctx: Context, certs: set<Certificate>, cert: Certificate)
    ensures RootsSelfSigned(ctx, certs) ==>
              (RootsSelfSigned(ctx, certs + {cert}) <==> (ctx.IsRoot(cert) ==> ctx.SelfSigned(cert)))
    ensures HasLiveRoot(ctx, certs) ==> HasLiveRoot(ctx, certs + {cert})
    ensures AllVouched(ctx, certs) ==> (AllVouched(ctx, certs + {cert}) <==> Vouched(ctx, certs + {cert}, cert))
  {
    var more := certs + {cert};
    LargerSetTrustsMore(ctx, certs, more);
    assert cert in more;
    if HasLiveRoot(ctx, certs) {
      var root :| root in certs && ctx.IsRoot(root) && ctx.Live(root);
      assert root in more;
    }
  }

  /** Each certificate is live, for a non-root key and signed by its predecessor, which may issue. */
  ghost predicate IssuedInTurn(ctx: Context, issuer: Certificate, certs: seq<Certificate>)
    decreases certs
  {
    certs != [] ==>
      && issuer.body.canIssue && ctx.SignedBy(certs[0], issuer.Pk())
      && ctx.Live(certs[0]) && !ctx.IsRoot(certs[0])
      && IssuedInTurn(ctx, certs[0], certs[1..])
  }

  function ExtendAll(chain: Chain, certs: seq<Certificate>): Chain
    decreases certs
  {
    if certs == [] then chain else ExtendAll(Extend(chain, certs[0]), certs[1..])
  }

  /** Any number of issuances, each by the device added before. */
  lemma {:induction false} ExtendAllAccepted(ctx: Context, chain: Chain, certs: seq<Certificate>)
    requires Verdict(ctx, chain) == Accepted && IssuedInTurn(ctx, chain.leaf, certs)
    ensures Verdict(ctx, ExtendAll(chain, certs)) == Accepted
    ensures ExtendAll(chain, certs).leaf == if certs == [] then chain.leaf else certs[|certs| - 1]
    decreases certs
  {
    if certs != [] {
      ExtendAccepted(ctx, chain, certs[0]);
      ExtendAllAccepted(ctx, Extend(chain, certs[0]), certs[1..]);
    }
  }

  /** Device linking from end to end: the issuer's secret signs a certificate for a new key, and the
      new chain is accepted exactly while the certificate is live, unless the new key is a root key. */
  lemma IssuedCertificateAccepted(ctx: Context, chain: Chain, issuer: Secret, body: Body)
    requires ctx.scheme.Correct()
    requires Verdict(ctx, chain) == Accepted
    requires chain.leaf.Pk() == ctx.scheme.publicOf(issuer) && chain.leaf.body.canIssue
    requires ctx.scheme.keyHash(body.pk) != ctx.root
    ensures Verdict(ctx, Extend(chain, Issue(ctx.scheme, issuer, body))) == Accepted <==> body.expiry > ctx.now
  {
    assert ctx.scheme.verifies(ctx.scheme.publicOf(issuer), body, ctx.scheme.sign(issuer, body));
    ExtendAccepted(ctx, chain, Issue(ctx.scheme, issuer, body));
  }

  /** A lone self-signed root authenticates its own device exactly while it is live, with or without issuing rights. */
  lemma SelfSignedRootAccepted(ctx: Context, device: Secret, expiry: nat, canIssue: bool)
    requires ctx.scheme.Correct()
    ensures var body := Body(ctx.scheme.publicOf(device), expiry, canIssue);
            var outcome := Verdict(ctx, Chain([], Issue(ctx.scheme, device, body)));
            outcome == if ctx.scheme.keyHash(body.pk) == ctx.root && expiry > ctx.now then Accepted else NoTrustedRoot
  {
    var body := Body(ctx.scheme.publicOf(device), expiry, canIssue);
    var cert := Issue(ctx.scheme, device, body);
    assert ctx.scheme.verifies(body.pk, body, cert.signature);
    assert Elements([] + [cert]) == {cert};
    assert cert in {cert};
  }

  /** From the trusted root to the leaf: every certificate but the leaf may issue and is live, each signs the next. */
  ghost predicate AuthenticatingPath(ctx: Context, chain: Chain, path: seq<Certificate>) {
    && path != [] && path[|path| - 1] == chain.leaf
    && (forall i | 0 <= i < |path| :: path[i] in chain.All() && ctx.Live(path[i]))
    && (forall i | 0 <= i < |path| - 1 :: path[i].body.canIssue && ctx.SignedBy(path[i + 1], path[i].Pk()))
    && ctx.IsRoot(path[0]) && ctx.SelfSigned(path[0])
  }

  /** An accepted chain yields an explicit path of live issuing certificates from the root to the leaf. */
  lemma AcceptedHasPath(ctx: Context, chain: Chain) returns (path: seq<Certificate>)
    requires Verdict(ctx, chain) == Accepted
    ensures AuthenticatingPath(ctx, chain, path)
  {
    var certs := Elements(chain.All());
    assert chain.leaf in certs;
    if ctx.IsRoot(chain.leaf) {
      path := [chain.leaf];
    } else {
      var pk :| TrustedSigner(ctx, certs, pk) && ctx.SignedBy(chain.leaf, pk);
      var issuers: seq<Certificate> :| IssuerPath(ctx, certs, issuers) && issuers[|issuers| - 1].Pk() == pk;
      path := issuers + [chain.leaf];
      forall i | 0 <= i < |path| - 1 ensures path[i].body.canIssue && ctx.SignedBy(path[i + 1], path[i].Pk()) {
        assert path[i] == issuers[i];
      }
    }
  }

  /** The documentation says expired certificates are ignored. The code consumes them without effect, but
      only when they are vouched for: adding an expired one keeps acceptance exactly in that case. */
  lemma ExpiredAncestor(ctx: Context, chain: Chain, expired: Certificate)
    requires !ctx.Live(expired) && Verdict(ctx, chain) == Accepted
    ensures Verdict(ctx, chain.(ancestors := [expired] + chain.ancestors)) == Accepted
            <==> Vouched(ctx, Elements(chain.All()), expired)
  {
    var certs := Elements(chain.All());
    assert Elements(([expired] + chain.ancestors) + [chain.leaf]) == certs + {expired};
    OneMoreCertificate(ctx, certs, expired);
    ExpiredVouchesNobody(ctx, certs, expired);
  }

  /** An expired certificate is on no issuer path. */
  lemma ExpiredVouchesNobody(ctx: Context, certs: set<Certificate>, expired: Certificate)
    requires !ctx.Live(expired)
    ensures forall c :: Vouched(ctx, certs + {expired}, c) <==> Vouched(ctx, certs, c)
  {
    LargerSetTrustsMore(ctx, certs, certs + {expired});
    forall pk | TrustedSigner(ctx, certs + {expired}, pk) ensures TrustedSigner(ctx, certs, pk) {
      var path: seq<Certificate> :| IssuerPath(ctx, certs + {expired}, path) && path[|path| - 1].Pk() == pk;
      assert IssuerPath(ctx, certs, path);
    }
  }
}
