/** Signing a control task and verifying it (`authorize_control_task`, `verify_execution_authorization` in
    `scripts/ao2_windows_outbound_worker.py`). Times are whole microseconds. */
module ExecutionAuthorization {
  import opened Wrappers
  import opened Hashing
  import opened Signing

  /** A JSON value as Python holds it: the members of an object have no order, so two values are equal exactly when
      their canonical texts are. `Scalar` is any literal or number. */
  datatype Value =
    | Text(text: string)
    | Object(members: map<string, Value>)
    | List(items: seq<Value>)
    | Scalar(token: string)

  /** The members of the `ao2_cross_host` object, all but the authorization. */
  type Fields = map<string, Value>

  datatype Subject = Subject(
    schemaVersion: string, actionDigest: Digest<Fields>, targetNode: Value, requestId: Value,
    issuedAt: Option<int>, expiresAt: Option<int>, signingKey: Digest<PublicKey>)

  datatype Authorization = Authorization(
    subject: Subject, algorithm: string, signature: Signature<Subject>, publicKey: PublicKey)

  /** What `execution_authorization` may be: absent or no object, an object of another shape, or this record. */
  datatype Attached = Missing | Misshapen | Attached(authorization: Authorization)

  datatype CrossHost = CrossHost(fields: Fields, attached: Attached)

  datatype Verdict =
    | Verified
    | AuthorizationMissing
    | AuthorizationMalformed
    | SchemaMismatch
    | AlgorithmMismatch
    | UntrustedKey
    | TargetMismatch
    | RequestMismatch
    | ActionDigestMismatch
    | TimestampInvalid
    | TtlExceeded
    | NotYetValid
    | Expired
    | SignatureInvalid

  datatype AuthorizeError = BadTtl | BadParameters | KeyMismatch | KeyNotTrusted

  const SECOND := 1_000_000
  const MAX_TTL_SECONDS := 900
  const CLOCK_SKEW_SECONDS := 300
  const SUBJECT_SCHEMA := "ao2.cross-host.execution-authorization.v1"
  const SIGNATURE_ALGORITHM := "rsa-pkcs1v15-sha256"
  const MAX_PEM_BYTES := 8192
  const MAX_SIGNATURE_CHARS := 4096

  function ActionDigest(fields: Fields): Digest<Fields> {
    Sha256(fields)
  }

  predicate IsText(fields: Fields, key: string) {
    key in fields && fields[key].Text?
  }

  /** Python's `str(value or "")` on the values that compare equal to their own text: strings. Other values turn
      into a text that differs from them. */
  function TextOf(fields: Fields, key: string): Value {
    if IsText(fields, key) then fields[key] else Text("")
  }

  function SubjectFor(fields: Fields, key: PublicKey, issued: int, expires: int): Subject {
    Subject(SUBJECT_SCHEMA, ActionDigest(fields), TextOf(fields, "target_node"), TextOf(fields, "request_id"),
            Some(issued), Some(expires), Sha256(key))
  }

  function Authorize(c: CrossHost, secret: SecretKey, public: PublicKey, ttl: int, issued: int,
                     trusted: set<Digest<PublicKey>>): Result<CrossHost, AuthorizeError>
  {
    if ttl <= 0 || ttl > MAX_TTL_SECONDS then Err(BadTtl)
    else if "parameters" !in c.fields || !c.fields["parameters"].Object? then Err(BadParameters)
    else if PublicOf(secret) != public then Err(KeyMismatch)
    else if Sha256(public) !in trusted then Err(KeyNotTrusted)
    else
      var subject := SubjectFor(c.fields, public, issued, issued + ttl * SECOND);
      Ok(c.(attached := Attached(Authorization(subject, SIGNATURE_ALGORITHM, Signed(secret, subject), public))))
  }

  function Verify(c: CrossHost, trusted: set<Digest<PublicKey>>, now: int): Verdict {
    match c.attached
    case Missing => AuthorizationMissing
    case Misshapen => AuthorizationMalformed
    case Attached(a) =>
      if a.subject.schemaVersion != SUBJECT_SCHEMA then SchemaMismatch
      else if a.algorithm != SIGNATURE_ALGORITHM then AlgorithmMismatch
      else if a.publicKey.secret.pemBytes > MAX_PEM_BYTES then AuthorizationMalformed
      else if a.signature.signer.signatureChars > MAX_SIGNATURE_CHARS then AuthorizationMalformed
      else if Sha256(a.publicKey) !in trusted || a.subject.signingKey != Sha256(a.publicKey) then UntrustedKey
      else if Some(a.subject.targetNode) != Lookup(c.fields, "target_node") then TargetMismatch
      else if Some(a.subject.requestId) != Lookup(c.fields, "request_id") then RequestMismatch
      else if a.subject.actionDigest != ActionDigest(c.fields) then ActionDigestMismatch
      else VerifyWindow(a, now)
  }

  function VerifyWindow(a: Authorization, now: int): Verdict {
    match (a.subject.issuedAt, a.subject.expiresAt)
    case (Some(issued), Some(expires)) =>
      if expires <= issued then TimestampInvalid
      else if expires - issued > MAX_TTL_SECONDS * SECOND then TtlExceeded
      else if issued > now + CLOCK_SKEW_SECONDS * SECOND then NotYetValid
      else if now > expires then Expired
      else if !Verifies(a.signature, a.publicKey, a.subject) then SignatureInvalid
      else Verified
    case _ => TimestampInvalid
  }

  /** Authorizing succeeds exactly for a lifetime of 1 to 900 seconds, an object of parameters, and a trusted
      key that matches its secret. What it signed verifies exactly from 300 seconds before the issue to the
      expiry -- when node and request id are texts, and the key's PEM and signature are within their limits. */
  lemma AuthorizedVerifiesInWindow(c: CrossHost, secret: SecretKey, public: PublicKey, ttl: int, issued: int,
                                   trusted: set<Digest<PublicKey>>, now: int)
    ensures var r := Authorize(c, secret, public, ttl, issued, trusted);
            && (r.Ok? <==> 1 <= ttl <= 900 && "parameters" in c.fields && c.fields["parameters"].Object?
                           && public == PublicOf(secret) && Sha256(public) in trusted)
            && (r.Ok? ==> r.value.fields == c.fields && ActionDigest(r.value.fields) == ActionDigest(c.fields))
            && (r.Ok? ==>
                  (Verify(r.value, trusted, now).Verified? <==>
                   && issued - 300_000_000 <= now <= issued + ttl * 1_000_000
                   && IsText(c.fields, "target_node") && IsText(c.fields, "request_id")
                   && secret.pemBytes <= 8192 && secret.signatureChars <= 4096))
  {}

  /** An authorization moved to a task that differs in any field never verifies, at no time and under no
      trust list; nor does one whose subject differs from the signed one. */
  lemma TamperingFails(c: CrossHost, secret: SecretKey, public: PublicKey, ttl: int, issued: int,
                       trusted: set<Digest<PublicKey>>, fields: Fields, subject: Subject,
                       others: set<Digest<PublicKey>>, now: int)
    requires Authorize(c, secret, public, ttl, issued, trusted).Ok?
    ensures var a := Authorize(c, secret, public, ttl, issued, trusted).value.attached.authorization;
            && (fields != c.fields ==> !Verify(CrossHost(fields, Attached(a)), others, now).Verified?)
            && (subject != a.subject ==>
                  !Verify(CrossHost(fields, Attached(a.(subject := subject))), others, now).Verified?)
  {}

  /** Signed by the secret of a trusted key for exactly these fields, at most 15 minutes long, and in force. */
  ghost predicate SignedFor(c: CrossHost, trusted: set<Digest<PublicKey>>, now: int) {
    c.attached.Attached? &&
    var a := c.attached.authorization;
    && a.signature == Signed(a.publicKey.secret, a.subject) && Sha256(a.publicKey) in trusted
    && a.subject.actionDigest == Sha256(c.fields)
    && Some(a.subject.targetNode) == Lookup(c.fields, "target_node")
    && Some(a.subject.requestId) == Lookup(c.fields, "request_id")
    && a.subject.issuedAt.Some? && a.subject.expiresAt.Some?
    && now <= a.subject.expiresAt.value <= a.subject.issuedAt.value + 900_000_000
    && a.subject.issuedAt.value <= now + 300_000_000
  }

  /** Whatever verifies was signed for it. */
  lemma VerifiedMeansSigned(c: CrossHost, trusted: set<Digest<PublicKey>>, now: int)
    requires Verify(c, trusted, now).Verified?
    ensures SignedFor(c, trusted, now)
  {}

  /** Why an authorization made for `c` is refused later: the reason names what is wrong, in the order of the checks. */
  lemma RefusalTells(c: CrossHost, secret: SecretKey, ttl: int, issued: int, trusted: set<Digest<PublicKey>>,
                     fields: Fields, others: set<Digest<PublicKey>>, now: int)
    requires Authorize(c, secret, PublicOf(secret), ttl, issued, trusted).Ok?
    requires secret.pemBytes <= 8192 && secret.signatureChars <= 4096
    requires IsText(c.fields, "target_node") && IsText(c.fields, "request_id")
    ensures var a := Authorize(c, secret, PublicOf(secret), ttl, issued, trusted).value.attached.authorization;
            var verdict := Verify(CrossHost(fields, Attached(a)), others, now);
            var node, id := Lookup(fields, "target_node"), Lookup(fields, "request_id");
            var sameNode, sameId := node == Lookup(c.fields, "target_node"), id == Lookup(c.fields, "request_id");
            if Sha256(PublicOf(secret)) !in others then verdict == UntrustedKey
            else if !sameNode then verdict == TargetMismatch
            else if !sameId then verdict == RequestMismatch
            else if fields != c.fields then verdict == ActionDigestMismatch
            else if now < issued - 300 * 1_000_000 then verdict == NotYetValid
            else if now > issued + ttl * 1_000_000 then verdict == Expired
            else verdict == Verified
  {}

  /** Why signing is refused, in the order of the checks. */
  lemma AuthorizeTells(c: CrossHost, secret: SecretKey, public: PublicKey, ttl: int, issued: int,
                       trusted: set<Digest<PublicKey>>)
    ensures var r := Authorize(c, secret, public, ttl, issued, trusted);
            var parameters := "parameters" in c.fields && c.fields["parameters"].Object?;
            && (r == Err(BadTtl) <==> !(1 <= ttl <= 900))
            && (r == Err(BadParameters) <==> 1 <= ttl <= 900 && !parameters)
            && (r == Err(KeyMismatch) <==> 1 <= ttl <= 900 && parameters && public.secret != secret)
            && (r == Err(KeyNotTrusted) <==>
                1 <= ttl <= 900 && parameters && public.secret == secret && Sha256(public) !in trusted)
  {}
}
