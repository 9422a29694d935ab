/** The walk from an attestation certificate up to a trusted root. */
module Chain {
  import opened Bytes
  import opened Wrappers

  /** What is consulted of a certificate. A validity date that cannot be read is None. */
  datatype Certificate = Certificate(
    raw: ByteString, ca: bool, validFrom: Option<int>, validTo: Option<int>,
    key: PublicKey, subject: string, issuer: string, hosts: seq<string>)

  /** A certificate's key: its kind, its curve if it has one, and its DER form. */
  datatype PublicKey = PublicKey(kind: KeyKind, spki: ByteString)

  datatype KeyKind = RsaKind | Ed25519Kind | P256Kind | OtherEcKind | OtherKind

  /** The two checks of X.509 issuance: names and identifiers match; the signature verifies. */
  datatype Issuance = Issuance(
    names: (Certificate, Certificate) -> bool,
    signed: (Certificate, Certificate) -> bool)

  const MAX_CHAIN_DEPTH := 6

  predicate Current(cert: Certificate, now: int) {
    cert.validFrom.Some? && cert.validTo.Some? && cert.validFrom.value <= now <= cert.validTo.value
  }

  predicate IssuedBy(x: Issuance, now: int, cert: Certificate, issuer: Certificate) {
    Current(issuer, now) && x.names(cert, issuer) && x.signed(cert, issuer)
  }

  predicate Anchored(x: Issuance, now: int, cert: Certificate, anchors: seq<Certificate>) {
    exists a :: 0 <= a < |anchors| && IssuedBy(x, now, cert, anchors[a])
  }

  /** Whether the j-th certificate may be the one above the i-th. */
  predicate MayFollow(x: Issuance, now: int, chain: seq<Certificate>, i: nat, j: nat)
    requires i < |chain| && j < |chain|
  {
    j != i && chain[j].ca && IssuedBy(x, now, chain[i], chain[j])
  }

  /** The first certificate, from index `from` on, that may be above the i-th. */
  function NextAbove(x: Issuance, now: int, chain: seq<Certificate>, i: nat, from: nat): (j: Option<nat>)
    requires i < |chain|
    ensures j.Some? ==> from <= j.value < |chain| && MayFollow(x, now, chain, i, j.value)
    ensures j.None? ==> forall k :: from <= k < |chain| ==> !MayFollow(x, now, chain, i, k)
    decreases |chain| - from
  {
    if from >= |chain| then None
    else if MayFollow(x, now, chain, i, from) then Some(from)
    else NextAbove(x, now, chain, i, from + 1)
  }

  /** Whether an anchor is reached from the i-th certificate in at most `left` steps. */
  predicate Walk(x: Issuance, now: int, chain: seq<Certificate>, anchors: seq<Certificate>, i: nat, left: nat)
    requires i < |chain|
    decreases left
  {
    left > 0
    && (Anchored(x, now, chain[i], anchors)
        || var next := NextAbove(x, now, chain, i, 0);
           next.Some? && Walk(x, now, chain, anchors, next.value, left - 1))
  }

  predicate ReachesAnchor(x: Issuance, now: int, chain: seq<Certificate>, anchors: seq<Certificate>) {
    |chain| > 0 && Current(chain[0], now) && Walk(x, now, chain, anchors, 0, MAX_CHAIN_DEPTH)
  }

  // ---- The walk as it runs ---------------------------------------------------------------

  method FindAnchor(x: Issuance, now: int, cert: Certificate, anchors: seq<Certificate>) returns (found: bool)
    ensures found == Anchored(x, now, cert, anchors)
  {
    for a := 0 to |anchors|
      invariant forall k :: 0 <= k < a ==> !IssuedBy(x, now, cert, anchors[k])
    {
      if Current(anchors[a], now) && x.names(cert, anchors[a]) && x.signed(cert, anchors[a]) {
        return true;
      }
    }
    return false;
  }

  method FindAbove(x: Issuance, now: int, chain: seq<Certificate>, i: nat) returns (j: Option<nat>)
    requires i < |chain|
    ensures j == NextAbove(x, now, chain, i, 0)
  {
    for k := 0 to |chain|
      invariant NextAbove(x, now, chain, i, 0) == NextAbove(x, now, chain, i, k)
    {
      if k != i && chain[k].ca && IssuedBy(x, now, chain[i], chain[k]) {
        return Some(k);
      }
    }
    return None;
  }

  method ChainReachesAnchor(x: Issuance, now: int, chain: seq<Certificate>, anchors: seq<Certificate>)
      returns (reached: bool)
    ensures reached == ReachesAnchor(x, now, chain, anchors)
  {
    hide Anchored, NextAbove, Current;
    if |chain| == 0 || !Current(chain[0], now) {
      return false;
    }
    var current: nat := 0;
    for depth := 0 to MAX_CHAIN_DEPTH
      invariant current < |chain|
      invariant ReachesAnchor(x, now, chain, anchors)
                == Walk(x, now, chain, anchors, current, MAX_CHAIN_DEPTH - depth)
    {
      var anchored := FindAnchor(x, now, chain[current], anchors);
      if anchored {
        return true;
      }
      var issuer := FindAbove(x, now, chain, current);
      if issuer.None? {
        return false;
      }
      current := issuer.value;
    }
    return false;
  }

  // ---- What reaching an anchor means -----------------------------------------------------

  /** Indices of certificates, each issued by the next, all but the first being CAs, up to an anchor. */
  predicate IsPath(x: Issuance, now: int, chain: seq<Certificate>, anchors: seq<Certificate>, path: seq<nat>) {
    && 0 < |path|
    && (forall k :: 0 <= k < |path| ==> path[k] < |chain|)
    && (forall k :: 0 <= k < |path| - 1 ==> MayFollow(x, now, chain, path[k], path[k + 1]))
    && Anchored(x, now, chain[path[|path| - 1]], anchors)
  }

  // ---- A trust path, spelled out ---------------------------------------------------------------

  /** `now` lies within the certificate's validity, both of whose dates can be read. */
  predicate ValidAt(cert: Certificate, now: int) {
    && cert.validFrom.Some? && cert.validFrom.value <= now
    && cert.validTo.Some? && now <= cert.validTo.value
  }

  /** The upper certificate, valid now, is named as issuer of the lower and has signed it. */
  predicate Issued(x: Issuance, now: int, lower: Certificate, upper: Certificate) {
    ValidAt(upper, now) && x.names(lower, upper) && x.signed(lower, upper)
  }

  /** The j-th certificate of the chain is a CA, another than the i-th, and has issued that one. */
  predicate Above(x: Issuance, now: int, chain: seq<Certificate>, i: nat, j: nat)
    requires i < |chain| && j < |chain|
  {
    j != i && chain[j].ca && Issued(x, now, chain[i], chain[j])
  }

  /**
   * At most six certificates of the chain, the leaf first: all valid now, each named as its issuer by the one
   * before, which it has signed, all but the leaf CAs, and the last of them signed by a valid anchor it names.
   */
  predicate TrustPath(x: Issuance, now: int, chain: seq<Certificate>, anchors: seq<Certificate>, path: seq<nat>) {
    && 1 <= |path| <= 6 && path[0] == 0
    && (forall k :: 0 <= k < |path| ==> path[k] < |chain| && ValidAt(chain[path[k]], now))
    && (forall k :: 0 <= k < |path| - 1 ==> Above(x, now, chain, path[k], path[k + 1]))
    && exists a :: 0 <= a < |anchors| && Issued(x, now, chain[path[|path| - 1]], anchors[a])
  }

  /** Among the certificates that could be above each, the path takes the first in the chain. */
  predicate OfFirstIssuers(x: Issuance, now: int, chain: seq<Certificate>, path: seq<nat>) {
    && (forall k :: 0 <= k < |path| ==> path[k] < |chain|)
    && forall k, j :: 0 <= k < |path| - 1 && 0 <= j < path[k + 1] ==> !Above(x, now, chain, path[k], j)
  }

  /** Some trust path takes the first issuer at every step. */
  ghost predicate Reaches(x: Issuance, now: int, chain: seq<Certificate>, anchors: seq<Certificate>) {
    exists path :: TrustPath(x, now, chain, anchors, path) && OfFirstIssuers(x, now, chain, path)
  }

  /** What the walk asks of two certificates is that the one has issued the other. */
  lemma IssuedMeans(x: Issuance, now: int, lower: Certificate, upper: Certificate)
    ensures IssuedBy(x, now, lower, upper) <==> Issued(x, now, lower, upper)
    ensures Current(upper, now) <==> ValidAt(upper, now)
  {
  }

  lemma AnchoredMeans(x: Issuance, now: int, cert: Certificate, anchors: seq<Certificate>)
    ensures Anchored(x, now, cert, anchors) <==> exists a :: 0 <= a < |anchors| && Issued(x, now, cert, anchors[a])
  {
    hide IssuedBy, Issued;
    forall a | 0 <= a < |anchors|
      ensures IssuedBy(x, now, cert, anchors[a]) <==> Issued(x, now, cert, anchors[a])
    {
      IssuedMeans(x, now, cert, anchors[a]);
    }
  }

  lemma AboveMeans(x: Issuance, now: int, chain: seq<Certificate>, i: nat, j: nat)
    requires i < |chain| && j < |chain|
    ensures MayFollow(x, now, chain, i, j) <==> Above(x, now, chain, i, j)
  {
  }

  /** The paths that the walk follows are the trust paths. */
  lemma TrustPathMeans(x: Issuance, now: int, chain: seq<Certificate>, anchors: seq<Certificate>, path: seq<nat>)
    ensures TrustPath(x, now, chain, anchors, path)
            <==> && IsPath(x, now, chain, anchors, path) && path[0] == 0 && Current(chain[0], now)
                 && |path| <= MAX_CHAIN_DEPTH
  {
    hide Anchored, MayFollow, Above, Issued;
    if |path| > 0 && forall k :: 0 <= k < |path| ==> path[k] < |chain| {
      AnchoredMeans(x, now, chain[path[|path| - 1]], anchors);
      forall k | 0 <= k < |path| - 1
        ensures MayFollow(x, now, chain, path[k], path[k + 1]) <==> Above(x, now, chain, path[k], path[k + 1])
      {
        AboveMeans(x, now, chain, path[k], path[k + 1]);
      }
      if IsPath(x, now, chain, anchors, path) && path[0] == 0 && Current(chain[0], now) {
        forall k | 0 <= k < |path| ensures ValidAt(chain[path[k]], now) {
          if k > 0 {
            AboveIsValid(x, now, chain, path[k - 1], path[k - 1 + 1]);
          }
        }
      }
    }
  }

  lemma AboveIsValid(x: Issuance, now: int, chain: seq<Certificate>, i: nat, j: nat)
    requires i < |chain| && j < |chain| && MayFollow(x, now, chain, i, j)
    ensures ValidAt(chain[j], now)
  {
  }

  /** Whether the j-th certificate is the first that may be the one above the i-th. */
  predicate FirstStep(x: Issuance, now: int, chain: seq<Certificate>, i: nat, j: nat)
    requires i < |chain| && j < |chain|
  {
    MayFollow(x, now, chain, i, j) && forall k :: 0 <= k < j ==> !MayFollow(x, now, chain, i, k)
  }

  /** Each certificate of the path but the last is followed by the first that may follow it. */
  predicate OfFirstSteps(x: Issuance, now: int, chain: seq<Certificate>, path: seq<nat>) {
    && (forall k :: 0 <= k < |path| ==> path[k] < |chain|)
    && forall k :: 0 <= k < |path| - 1 ==> FirstStep(x, now, chain, path[k], path[k + 1])
  }

  lemma FirstIssuersMean(x: Issuance, now: int, chain: seq<Certificate>, anchors: seq<Certificate>, path: seq<nat>)
    requires IsPath(x, now, chain, anchors, path)
    ensures OfFirstSteps(x, now, chain, path) <==> OfFirstIssuers(x, now, chain, path)
  {
    hide Anchored;
    if OfFirstSteps(x, now, chain, path) {
      forall k, j | 0 <= k < |path| - 1 && 0 <= j < path[k + 1]
        ensures !Above(x, now, chain, path[k], j)
      {
        assert FirstStep(x, now, chain, path[k], path[k + 1]);
        assert !MayFollow(x, now, chain, path[k], j);
      }
    }
    if OfFirstIssuers(x, now, chain, path) {
      forall k | 0 <= k < |path| - 1 ensures FirstStep(x, now, chain, path[k], path[k + 1]) {
        assert Above(x, now, chain, path[k], path[k + 1]);
        forall j | 0 <= j < path[k + 1] ensures !MayFollow(x, now, chain, path[k], j) {
          assert !Above(x, now, chain, path[k], j);
        }
      }
    }
  }

  lemma {:induction false} NothingBeforeNext(
      x: Issuance, now: int, chain: seq<Certificate>, i: nat, from: nat, k: nat)
    requires i < |chain| && NextAbove(x, now, chain, i, from).Some?
    requires from <= k < NextAbove(x, now, chain, i, from).value
    ensures !MayFollow(x, now, chain, i, k)
    decreases |chain| - from
  {
    hide MayFollow;
    if from < k {
      NothingBeforeNext(x, now, chain, i, from + 1, k);
    }
  }

  /** What the search finds is the first step, and the first step is what it finds. */
  lemma NextIsFirstStep(x: Issuance, now: int, chain: seq<Certificate>, i: nat, j: nat)
    requires i < |chain| && j < |chain|
    ensures NextAbove(x, now, chain, i, 0) == Some(j) <==> FirstStep(x, now, chain, i, j)
  {
    hide MayFollow;
    var next := NextAbove(x, now, chain, i, 0);
    if next.Some? {
      forall k | 0 <= k < next.value ensures !MayFollow(x, now, chain, i, k) {
        NothingBeforeNext(x, now, chain, i, 0, k);
      }
      assert MayFollow(x, now, chain, i, next.value);
    }
  }

  lemma {:induction false} WalkFollowsPath(
      x: Issuance, now: int, chain: seq<Certificate>, anchors: seq<Certificate>, i: nat, left: nat)
      returns (path: seq<nat>)
    requires i < |chain| && Walk(x, now, chain, anchors, i, left)
    ensures IsPath(x, now, chain, anchors, path) && OfFirstSteps(x, now, chain, path)
    ensures path[0] == i && |path| <= left
    decreases left
  {
    hide Anchored, MayFollow;
    if Anchored(x, now, chain[i], anchors) {
      path := [i];
    } else {
      var next := NextAbove(x, now, chain, i, 0).value;
      NextIsFirstStep(x, now, chain, i, next);
      var rest := WalkFollowsPath(x, now, chain, anchors, next, left - 1);
      path := [i] + rest;
    }
  }

  /** The walk is sound: an accepted chain holds a path of at most six certificates to an anchor. */
  lemma ReachingIsSound(x: Issuance, now: int, chain: seq<Certificate>, anchors: seq<Certificate>)
      returns (path: seq<nat>)
    requires ReachesAnchor(x, now, chain, anchors)
    ensures TrustPath(x, now, chain, anchors, path) && OfFirstIssuers(x, now, chain, path)
  {
    path := WalkFollowsPath(x, now, chain, anchors, 0, MAX_CHAIN_DEPTH);
    TrustPathMeans(x, now, chain, anchors, path);
    FirstIssuersMean(x, now, chain, anchors, path);
  }

  /** More anchors never turn an accepted chain away. */
  lemma {:induction false} WalkMonotone(
      x: Issuance, now: int, chain: seq<Certificate>, few: seq<Certificate>, many: seq<Certificate>,
      i: nat, left: nat)
    requires forall a :: a in few ==> a in many
    requires i < |chain| && Walk(x, now, chain, few, i, left)
    ensures Walk(x, now, chain, many, i, left)
    decreases left
  {
    if Anchored(x, now, chain[i], few) {
      var a :| 0 <= a < |few| && IssuedBy(x, now, chain[i], few[a]);
      assert few[a] in many;
    } else {
      WalkMonotone(x, now, chain, few, many, NextAbove(x, now, chain, i, 0).value, left - 1);
    }
  }

  lemma ReachingIsMonotone(
      x: Issuance, now: int, chain: seq<Certificate>, few: seq<Certificate>, many: seq<Certificate>)
    requires forall a :: a in few ==> a in many
    requires ReachesAnchor(x, now, chain, few)
    ensures ReachesAnchor(x, now, chain, many)
  {
    WalkMonotone(x, now, chain, few, many, 0, MAX_CHAIN_DEPTH);
  }

  lemma {:induction false} WalkNeedsOneAnchor(
      x: Issuance, now: int, chain: seq<Certificate>, anchors: seq<Certificate>, i: nat, left: nat) returns (a: nat)
    requires i < |chain| && Walk(x, now, chain, anchors, i, left)
    ensures a < |anchors| && Walk(x, now, chain, [anchors[a]], i, left)
    decreases left
  {
    if Anchored(x, now, chain[i], anchors) {
      a :| 0 <= a < |anchors| && IssuedBy(x, now, chain[i], anchors[a]);
      assert IssuedBy(x, now, chain[i], [anchors[a]][0]);
    } else {
      a := WalkNeedsOneAnchor(x, now, chain, anchors, NextAbove(x, now, chain, i, 0).value, left - 1);
    }
  }

  /** A chain reaches some of the anchors if and only if it reaches one of them taken alone. */
  lemma OneAnchorSuffices(x: Issuance, now: int, chain: seq<Certificate>, anchors: seq<Certificate>)
    ensures ReachesAnchor(x, now, chain, anchors)
            <==> exists a :: 0 <= a < |anchors| && ReachesAnchor(x, now, chain, [anchors[a]])
  {
    hide Walk;
    if ReachesAnchor(x, now, chain, anchors) {
      var a := WalkNeedsOneAnchor(x, now, chain, anchors, 0, MAX_CHAIN_DEPTH);
      assert ReachesAnchor(x, now, chain, [anchors[a]]);
    }
    forall a | 0 <= a < |anchors| && ReachesAnchor(x, now, chain, [anchors[a]])
      ensures ReachesAnchor(x, now, chain, anchors) {
      ReachingIsMonotone(x, now, chain, [anchors[a]], anchors);
    }
  }

  // ---- When a path is found ---------------------------------------------------------------

  lemma {:induction false} WalkFindsPath(
      x: Issuance, now: int, chain: seq<Certificate>, anchors: seq<Certificate>, path: seq<nat>, left: nat)
    requires IsPath(x, now, chain, anchors, path) && OfFirstSteps(x, now, chain, path) && |path| <= left
    ensures Walk(x, now, chain, anchors, path[0], left)
    decreases left
  {
    hide Anchored, MayFollow, FirstStep;
    if !Anchored(x, now, chain[path[0]], anchors) {
      assert FirstStep(x, now, chain, path[0], path[1]);
      NextIsFirstStep(x, now, chain, path[0], path[1]);
      var rest := path[1..];
      forall k | 0 <= k < |rest| - 1
        ensures MayFollow(x, now, chain, rest[k], rest[k + 1]) && FirstStep(x, now, chain, rest[k], rest[k + 1])
      {
        assert rest[k] == path[k + 1] && rest[k + 1] == path[k + 1 + 1];
      }
      WalkFindsPath(x, now, chain, anchors, rest, left - 1);
    }
  }

  /**
   * The walk is exact: a chain is accepted if and only if some trust path takes, at each certificate, the first
   * acceptable issuer there is in the chain.
   */
  lemma ReachingIsFirstPath(x: Issuance, now: int, chain: seq<Certificate>, anchors: seq<Certificate>)
    ensures ReachesAnchor(x, now, chain, anchors) <==> Reaches(x, now, chain, anchors)
  {
    hide IsPath, Walk, OfFirstSteps, TrustPath, OfFirstIssuers;
    if ReachesAnchor(x, now, chain, anchors) {
      var path := ReachingIsSound(x, now, chain, anchors);
    }
    forall path | TrustPath(x, now, chain, anchors, path) && OfFirstIssuers(x, now, chain, path)
      ensures ReachesAnchor(x, now, chain, anchors)
    {
      TrustPathMeans(x, now, chain, anchors, path);
      FirstIssuersMean(x, now, chain, anchors, path);
      assert |path| > 0 && |chain| > 0 by { PathStarts(x, now, chain, anchors, path); }
      WalkFindsPath(x, now, chain, anchors, path, MAX_CHAIN_DEPTH);
    }
  }

  /** The chain alone fixes that path: of two to any anchors, one is the beginning of the other. */
  lemma {:induction false} FirstPathsAgree(
      x: Issuance, now: int, chain: seq<Certificate>, anchors: seq<Certificate>, others: seq<Certificate>,
      p: seq<nat>, q: seq<nat>, k: nat)
    requires TrustPath(x, now, chain, anchors, p) && OfFirstIssuers(x, now, chain, p)
    requires TrustPath(x, now, chain, others, q) && OfFirstIssuers(x, now, chain, q)
    requires k < |p| && k < |q|
    ensures p[k] == q[k]
  {
    if k > 0 {
      FirstPathsAgree(x, now, chain, anchors, others, p, q, k - 1);
      var i := p[k - 1];
      assert Above(x, now, chain, i, p[k - 1 + 1]) && Above(x, now, chain, i, q[k - 1 + 1]);
    }
  }

  /** Each certificate of the chain has been issued by at most one other CA of it that is valid now. */
  predicate UniqueIssuers(x: Issuance, now: int, chain: seq<Certificate>) {
    forall i, j, k ::
      0 <= i < |chain| && 0 <= j < |chain| && 0 <= k < |chain|
      && Above(x, now, chain, i, j) && Above(x, now, chain, i, k)
      ==> j == k
  }

  /** Where issuers are unique every path is of first issuers: a chain is accepted if and only if it has one. */
  lemma ReachingIsExact(x: Issuance, now: int, chain: seq<Certificate>, anchors: seq<Certificate>)
    requires UniqueIssuers(x, now, chain)
    ensures ReachesAnchor(x, now, chain, anchors) <==> exists path :: TrustPath(x, now, chain, anchors, path)
  {
    hide ReachesAnchor, ValidAt, Issued;
    ReachingIsFirstPath(x, now, chain, anchors);
    forall path | TrustPath(x, now, chain, anchors, path) ensures OfFirstIssuers(x, now, chain, path) {
    }
  }

  lemma PathStarts(x: Issuance, now: int, chain: seq<Certificate>, anchors: seq<Certificate>, path: seq<nat>)
    requires IsPath(x, now, chain, anchors, path)
    ensures |path| > 0 && path[0] < |chain|
  {
  }

  /**
   * Where they are not unique it need not be: the walk takes the first issuer it finds and never turns back,
   * so a chain whose second issuer leads to the root is refused.
   */
  lemma WalkNeverTurnsBack()
    ensures exists x: Issuance, now: int, chain: seq<Certificate>, anchors: seq<Certificate>, path: seq<nat> ::
      TrustPath(x, now, chain, anchors, path) && !ReachesAnchor(x, now, chain, anchors)
  {
    var key := PublicKey(OtherKind, []);
    var leaf := Certificate([0], false, Some(0), Some(9), key, "leaf", "ca", []);
    var dead := Certificate([1], true, Some(0), Some(9), key, "ca", "gone", []);
    var good := Certificate([2], true, Some(0), Some(9), key, "ca", "root", []);
    var root := Certificate([3], true, Some(0), Some(9), key, "root", "root", []);
    var x := Issuance((c: Certificate, i: Certificate) => c.issuer == i.subject, (c, i) => true);
    var chain, anchors := [leaf, dead, good], [root];
    assert MayFollow(x, 5, chain, 0, 1) && MayFollow(x, 5, chain, 0, 2);
    assert IssuedBy(x, 5, good, anchors[0]);
    var path: seq<nat> := [0, 2];
    assert TrustPath(x, 5, chain, anchors, path);
    assert NextAbove(x, 5, chain, 0, 0) == Some(1);
    assert NextAbove(x, 5, chain, 1, 0) == None;
    assert !Walk(x, 5, chain, anchors, 1, 5);
    assert !ReachesAnchor(x, 5, chain, anchors);
  }
}
