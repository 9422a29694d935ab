/** The store-key namespace: every record the server keeps, and the key it is kept under. */
module StoreKeys {
  import Text

  datatype StoreKey =
    | AccessToken(hash: string)
    | AccessTokenId(id: string)
    | SessionTokens(session: string)
    | RefreshToken(hash: string)
    | RefreshConsumed(hash: string)
    | RefreshGrace(hash: string)
    | RefreshRevoked(hash: string)
    | SessionRefresh(session: string)
    | SessionMeta(session: string)
    | SessionRevoked(session: string)
    | UserSessions(user: string)
    | Revoked(id: string)
    | DpopProof(jkt: string, jti: string)
    | OneTimeToken(purpose: string, hash: string)
    | OneTimeTokenGeneration(purpose: string, subject: string)
    | RateLimit(bucket: string, window: nat)

  const NAMESPACE := "ninsho:v1:"

  /** The segment after the namespace. */
  function Family(k: StoreKey): string {
    match k
    case AccessToken(_) => "at"
    case AccessTokenId(_) => "atid"
    case RefreshToken(_) => "rt"
    case RefreshConsumed(_) => "rtc"
    case RefreshGrace(_) => "rtg"
    case RefreshRevoked(_) => "rtx"
    case UserSessions(_) => "user"
    case Revoked(_) => "rev"
    case DpopProof(_, _) => "dpop"
    case OneTimeToken(_, _) => "ott"
    case OneTimeTokenGeneration(_, _) => "ott"
    case RateLimit(_, _) => "rl"
    case _ => "sess"
  }

  /** What follows the family's segment. */
  function Rest(k: StoreKey): string {
    match k
    case AccessToken(hash) => hash
    case AccessTokenId(id) => id
    case SessionTokens(session) => session + ":at"
    case RefreshToken(hash) => hash
    case RefreshConsumed(hash) => hash
    case RefreshGrace(hash) => hash
    case RefreshRevoked(hash) => hash
    case SessionRefresh(session) => session + ":rt"
    case SessionMeta(session) => session + ":meta"
    case SessionRevoked(session) => session + ":dead"
    case UserSessions(user) => user + ":sess"
    case Revoked(id) => id
    case DpopProof(jkt, jti) => jkt + ":" + jti
    case OneTimeToken(purpose, hash) => purpose + ":" + hash
    case OneTimeTokenGeneration(purpose, subject) => purpose + ":gen:" + subject
    case RateLimit(bucket, window) => bucket + ":" + Text.Decimal(window)
  }

  function Render(k: StoreKey): string {
    NAMESPACE + Family(k) + ":" + Rest(k)
  }

  /** Parts that must hold no colon for their key to be told from every other. */
  predicate Clean(k: StoreKey) {
    match k
    case DpopProof(jkt, _) => ':' !in jkt
    case OneTimeToken(purpose, hash) => ':' !in purpose && ':' !in hash
    case OneTimeTokenGeneration(purpose, _) => ':' !in purpose
    case _ => true
  }

  /** Within the session family the last segment tells the records apart, whatever the session is called. */
  lemma SessionKeysDiffer(a: StoreKey, b: StoreKey)
    requires Family(a) == Family(b) == "sess" && Rest(a) == Rest(b)
    ensures a == b
  {
    var x, y := SessionOf(a), SessionOf(b);
    Text.LastJoinInjective(x.0, y.0, x.1, y.1, ':');
  }

  function SessionOf(k: StoreKey): (parts: (string, string))
    requires Family(k) == "sess"
    ensures Rest(k) == parts.0 + [':'] + parts.1 && ':' !in parts.1
  {
    match k
    case SessionTokens(session) => (session, "at")
    case SessionRefresh(session) => (session, "rt")
    case SessionMeta(session) => (session, "meta")
    case SessionRevoked(session) => (session, "dead")
  }

  /** What follows the purpose of a single-use token's key. */
  function AfterPurpose(k: StoreKey): string
    requires k.OneTimeToken? || k.OneTimeTokenGeneration?
  {
    if k.OneTimeToken? then k.hash else "gen:" + k.subject
  }

  lemma OttKinds(k: StoreKey)
    requires Family(k) == "ott"
    ensures k.OneTimeToken? || k.OneTimeTokenGeneration?
  {
    assert |"ott"| == 3 && "rtc"[0] == 'r' && "rtg"[0] == 'r' && "rtx"[0] == 'r' && "rev"[0] == 'r';
  }

  lemma TokenKeysDiffer(a: StoreKey, b: StoreKey)
    requires Clean(a) && Clean(b) && Rest(a) == Rest(b) && Family(a) == Family(b) == "ott"
    ensures a == b
  {
    OttKinds(a);
    OttKinds(b);
    assert Rest(a) == "" + a.purpose + [':'] + AfterPurpose(a);
    assert Rest(b) == "" + b.purpose + [':'] + AfterPurpose(b);
    Text.JoinInjective("", a.purpose, b.purpose, AfterPurpose(a), AfterPurpose(b), ':');
    GenerationMark(if a.OneTimeTokenGeneration? then a.subject else "");
    GenerationMark(if b.OneTimeTokenGeneration? then b.subject else "");
  }

  lemma GenerationMark(subject: string)
    ensures ':' in "gen:" + subject && ("gen:" + subject)[4..] == subject
  {
    assert ("gen:" + subject)[3] == ':';
  }

  lemma FamiliesHaveNoColon(k: StoreKey)
    ensures ':' !in Family(k)
  {
  }

  /** Two clean keys are one string only when they are one key. */
  lemma KeysNeverCollide(a: StoreKey, b: StoreKey)
    requires Clean(a) && Clean(b) && Render(a) == Render(b)
    ensures a == b
  {
    FamiliesHaveNoColon(a);
    FamiliesHaveNoColon(b);
    Text.JoinInjective(NAMESPACE, Family(a), Family(b), Rest(a), Rest(b), ':');
    if Family(a) != "sess" && Family(a) != "ott" {
      SameFamily(a, b);
    }
    if Family(a) == "sess" {
      SessionKeysDiffer(a, b);
    } else if Family(a) == "ott" {
      TokenKeysDiffer(a, b);
    } else if a.DpopProof? {
      assert Rest(a) == "" + a.jkt + [':'] + a.jti && Rest(b) == "" + b.jkt + [':'] + b.jti;
      Text.JoinInjective("", a.jkt, b.jkt, a.jti, b.jti, ':');
    } else if a.RateLimit? {
      Text.DecimalIsDigits(a.window, ':');
      Text.DecimalIsDigits(b.window, ':');
      Text.LastJoinInjective(a.bucket, b.bucket, Text.Decimal(a.window), Text.Decimal(b.window), ':');
      Text.DecimalInjective(a.window, b.window);
    } else if a.UserSessions? {
      assert Rest(a) == a.user + [':'] + "sess" && Rest(b) == b.user + [':'] + "sess";
      Text.LastJoinInjective(a.user, b.user, "sess", "sess", ':');
    }
  }

  /** Outside the two shared families, the family says which kind of record a key is for. */
  lemma SameFamily(a: StoreKey, b: StoreKey)
    requires Family(a) == Family(b) && Family(a) != "sess" && Family(a) != "ott"
    ensures a.AccessToken? <==> b.AccessToken?
    ensures a.AccessTokenId? <==> b.AccessTokenId?
    ensures a.RefreshToken? <==> b.RefreshToken?
    ensures a.RefreshConsumed? <==> b.RefreshConsumed?
    ensures a.RefreshGrace? <==> b.RefreshGrace?
    ensures a.RefreshRevoked? <==> b.RefreshRevoked?
    ensures a.UserSessions? <==> b.UserSessions?
    ensures a.Revoked? <==> b.Revoked?
    ensures a.DpopProof? <==> b.DpopProof?
    ensures a.RateLimit? <==> b.RateLimit?
  {
    var names := ["at", "atid", "rt", "rtc", "rtg", "rtx", "user", "rev", "dpop", "rl"];
    assert names[3][2] == 'c' && names[4][2] == 'g' && names[5][2] == 'x' && names[7][2] == 'v';
    assert names[0][0] == 'a' && names[2][0] == 'r' && names[2][1] == 't' && names[9][1] == 'l';
    assert names[1][0] == 'a' && names[6][0] == 'u' && names[8][0] == 'd';
  }

  // ---- Colons ------------------------------------------------------------------------------

  /** A text with a colon, taken apart at one. */
  lemma SplitAtColon(s: string) returns (before: string, after: string)
    requires ':' in s
    ensures s == before + ":" + after
  {
    var i :| 0 <= i < |s| && s[i] == ':';
    before, after := s[..i], s[i + 1..];
    assert s == s[..i] + [s[i]] + s[i + 1..];
  }

  /** Every key that is not clean is shared with another record. */
  lemma UncleanHasTwin(k: StoreKey) returns (t: StoreKey)
    requires !Clean(k)
    ensures t != k && Render(t) == Render(k)
  {
    if k.DpopProof? {
      t := LaterSplit(k);
    } else if k.OneTimeTokenGeneration? {
      t := TokenTwin(k);
    } else if ':' in k.purpose {
      var a, b := SplitAtColon(k.purpose);
      t := OneTimeToken(a, b + ":" + k.hash);
      assert Rest(t) == Rest(k);
    } else {
      var a, b := SplitAtColon(k.hash);
      t := OneTimeToken(k.purpose + ":" + a, b);
      assert Rest(t) == Rest(k);
    }
  }

  lemma LaterSplit(k: StoreKey) returns (t: StoreKey)
    requires k.DpopProof? && (':' in k.jkt || ':' in k.jti)
    ensures t != k && Render(t) == Render(k)
  {
    if ':' in k.jkt {
      var a, b := SplitAtColon(k.jkt);
      t := DpopProof(a, b + ":" + k.jti);
    } else {
      var a, b := SplitAtColon(k.jti);
      t := DpopProof(k.jkt + ":" + a, b);
    }
    assert Rest(t) == Rest(k);
  }

  /** The key of a generation is also that of a token whose hash would begin with the generation mark. */
  lemma TokenTwin(k: StoreKey) returns (t: StoreKey)
    requires k.OneTimeTokenGeneration?
    ensures t != k && t.OneTimeToken? && t.purpose == k.purpose && Render(t) == Render(k)
  {
    t := OneTimeToken(k.purpose, "gen:" + k.subject);
    assert Rest(t) == Rest(k);
  }

  /** The records whose key some other record, clean or not, would also be kept under. */
  predicate Shared(k: StoreKey) {
    match k
    case DpopProof(jkt, jti) => ':' in jkt || ':' in jti
    case OneTimeToken(purpose, hash) => ':' in purpose || ':' in hash
    case OneTimeTokenGeneration(_, _) => true
    case _ => false
  }

  /** A text with one colon splits there only. */
  lemma OneColon(a: string, b: string, x: string, y: string)
    requires ':' !in a && ':' !in b && a + ":" + b == x + ":" + y
    ensures a == x && b == y
  {
    var s := a + ":" + b;
    assert s[|x|] == (x + ":" + y)[|x|] == ':';
    assert forall i :: 0 <= i < |s| && i != |a| ==> s[i] == if i < |a| then a[i] else b[i - |a| - 1];
    assert |x| == |a|;
    assert a == s[..|a|] == x && b == s[|a| + 1..] == y;
  }

  lemma UnsharedHasNoTwin(k: StoreKey, t: StoreKey)
    requires !Shared(k) && Render(t) == Render(k)
    ensures t == k
  {
    FamiliesHaveNoColon(k);
    FamiliesHaveNoColon(t);
    Text.JoinInjective(NAMESPACE, Family(k), Family(t), Rest(k), Rest(t), ':');
    if k.DpopProof? {
      SameFamily(k, t);
      OneColon(k.jkt, k.jti, t.jkt, t.jti);
    } else if k.OneTimeToken? {
      OttKinds(t);
      assert Rest(t) == t.purpose + ":" + AfterPurpose(t);
      OneColon(k.purpose, k.hash, t.purpose, AfterPurpose(t));
      GenerationMark(if t.OneTimeTokenGeneration? then t.subject else "");
    } else {
      assert Clean(t) by {
        assert Family(k) != "dpop" && Family(k) != "ott" by {
          assert |"at"| == |"rt"| == |"rl"| == 2 && |"rtc"| == |"rtg"| == |"rtx"| == |"rev"| == 3;
          assert "rtc"[0] == "rtg"[0] == "rtx"[0] == "rev"[0] == 'r';
          assert "atid"[0] == 'a' && "user"[0] == 'u' && "sess"[0] == 's';
        }
      }
      KeysNeverCollide(k, t);
    }
  }

  /** Which records share their key with some other record: exactly these. */
  lemma SharedExactly(k: StoreKey)
    ensures Shared(k) <==> exists t :: t != k && Render(t) == Render(k)
  {
    if Shared(k) {
      var t: StoreKey;
      if k.DpopProof? {
        t := LaterSplit(k);
      } else if k.OneTimeTokenGeneration? {
        t := TokenTwin(k);
      } else {
        t := UncleanHasTwin(k);
      }
      assert t != k && Render(t) == Render(k);
    } else {
      forall t | Render(t) == Render(k) ensures t == k {
        UnsharedHasNoTwin(k, t);
      }
    }
  }

  /** A colon in a thumbprint or in a purpose: three pairs of records that share a key. */
  lemma ColonsCollide()
    ensures Render(DpopProof("a:b", "c")) == Render(DpopProof("a", "b:c"))
    ensures Render(OneTimeToken("a", "gen:b")) == Render(OneTimeTokenGeneration("a", "b"))
    ensures Render(OneTimeToken("a:gen", "b")) == Render(OneTimeTokenGeneration("a", "b"))
  {
    assert "a:b" + ":" + "c" == "a" + ":" + "b:c";
    assert "a" + ":" + "gen:b" == "a" + ":gen:" + "b";
    assert "a:gen" + ":" + "b" == "a" + ":gen:" + "b";
  }
}
