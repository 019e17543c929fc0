/** Obtaining a certificate from an ACME server: per domain, the DNS-01 authorization flow
    (publish the challenge record, let the server validate it, remove the record), then the
    packaging of the signed certificate into the four Base64-encoded certificate files. Every
    call to the ACME server and to the DNS provider is represented by its outcome. */
module CertificateRequestHandler {
  import opened Wrappers
  import opened Strings
  import opened Model
  import opened Encoding

  /** `org.shredzone.acme4j.Status` */
  datatype Status = PENDING | PROCESSING | VALID | INVALID | REVOKED | DEACTIVATED | GOOD | UNKNOWN

  datatype Dns01Challenge = Dns01Challenge(digest: string)
  /** An authorization for a domain: its status and the DNS-01 challenge it offers, if any. */
  datatype Authorization = Authorization(domain: string, status: Status, dns01: Option<Dns01Challenge>)

  /** A call made to the DNS responder. */
  datatype DnsCall = AddRecord(name: string, digest: string) | RemoveRecord(name: string, digest: string)

  /** What the outside world answers while one domain is authorized: the authorization the server
      hands out (`None` when `authorizeDomain` throws), the outcome of publishing the challenge
      record (the root zone it went into), the status seen after the trigger and the first update
      and then after each further update of the challenge (`None` where that call throws), and
      the outcome of removing the record. */
  datatype DomainOracle = DomainOracle(
    authorization: Option<Authorization>,
    addResult: Outcome<string>,
    statuses: seq<Option<Status>>,
    removeResult: Outcome<()>)

  /** The signed certificate as PEM text: the certificate, the certificates of its chain and the
      domain key, with its "not after" day. */
  datatype SignedCertificate = SignedCertificate(certificatePem: string, chainPems: seq<string>, keyPem: string, notAfter: Day)

  const CHALLENGE_PREFIX: string := "_acme-challenge."

  // ----------------------------------------------------------- the challenge

  /** The name of the TXT record that answers the DNS-01 challenge for `domain`. */
  function ChallengeRecordName(domain: string): (r: string)
    ensures StartsWith(r, CHALLENGE_PREFIX) && |r| == |CHALLENGE_PREFIX| + |domain|
    ensures r[|CHALLENGE_PREFIX|..] == domain
  {
    CHALLENGE_PREFIX + domain
  }

  /** Different domains never share a challenge record. */
  lemma ChallengeRecordNameInjective(a: string, b: string)
    requires ChallengeRecordName(a) == ChallengeRecordName(b)
    ensures a == b
  {
    assert a == ChallengeRecordName(a)[|CHALLENGE_PREFIX|..];
  }

  /** A prepared challenge and the call that cleans its record up. */
  datatype PreparedChallenge = PreparedChallenge(challenge: Dns01Challenge, rootZone: string, cleanup: DnsCall)

  /** An outcome together with the DNS calls made on the way to it. */
  datatype Step<T> = Step(result: Outcome<T>, calls: seq<DnsCall>)

  /** `prepareDnsChallenge`: without a DNS-01 challenge it fails before any DNS call; otherwise it
      publishes the digest under the challenge record name, and the cleanup it returns removes
      that same name and digest. */
  function PrepareDnsChallenge(authorization: Authorization, addResult: Outcome<string>): (r: Step<PreparedChallenge>)
    ensures authorization.dns01.None? ==> r == Step(Err(NoDnsChallenge), [])
    ensures authorization.dns01.Some? ==>
              r.calls == [AddRecord(ChallengeRecordName(authorization.domain), authorization.dns01.value.digest)]
    ensures r.result.Ok? <==> authorization.dns01.Some? && addResult.Ok?
    ensures authorization.dns01.Some? && addResult.Err? ==> r.result == Err(addResult.error)
    ensures r.result.Ok? ==>
              && r.result.value.challenge == authorization.dns01.value
              && r.result.value.rootZone == addResult.value
              && r.result.value.cleanup == RemoveRecord(r.calls[0].name, r.calls[0].digest)
  {
    match authorization.dns01
    case None => Step(Err(NoDnsChallenge), [])
    case Some(challenge) =>
      var challengeRecord := ChallengeRecordName(authorization.domain);
      var calls := [AddRecord(challengeRecord, challenge.digest)];
      match addResult
      case Err(e) => Step(Err(e), calls)
      case Ok(rootZone) => Step(Ok(PreparedChallenge(challenge, rootZone, RemoveRecord(challengeRecord, challenge.digest))), calls)
  }

  /** The first update whose answer is not PENDING: a failed call (`None`) or a settled status
      (PENDING if there is none). */
  function FirstSettled(statuses: seq<Option<Status>>): Option<Status> {
    if statuses == [] then Some(PENDING)
    else if statuses[0] != Some(PENDING) then statuses[0]
    else FirstSettled(statuses[1..])
  }

  /** The challenge leaves PENDING, or a call fails, at some update. */
  predicate Settles(statuses: seq<Option<Status>>) {
    exists k :: 0 <= k < |statuses| && statuses[k] != Some(PENDING)
  }

  /** The challenge settled on a status other than INVALID, with no failed call before. */
  predicate ChallengePasses(statuses: seq<Option<Status>>) {
    FirstSettled(statuses).Some? && FirstSettled(statuses).value != INVALID
  }

  lemma {:induction false} FirstSettledAt(statuses: seq<Option<Status>>, k: nat)
    requires k < |statuses| && statuses[k] != Some(PENDING)
    requires forall j :: 0 <= j < k ==> statuses[j] == Some(PENDING)
    ensures FirstSettled(statuses) == statuses[k]
  {
    if k > 0 {
      FirstSettledAt(statuses[1..], k - 1);
    }
  }

  /** `completeChallenge`: `statuses[i]` is what the (i+1)-th update answers, the trigger included
      in the first. The challenge is triggered and updated once, then updated again for as long
      as it is PENDING, and only PENDING; it fails with the ACME failure when a call threw and
      with `ChallengeInvalid` when the status it settled on is INVALID. */
  method CompleteChallenge(statuses: seq<Option<Status>>) returns (r: Outcome<()>, updates: nat)
    requires Settles(statuses)
    ensures 1 <= updates <= |statuses|
    ensures forall j :: 0 <= j < updates - 1 ==> statuses[j] == Some(PENDING)
    ensures statuses[updates - 1] == FirstSettled(statuses) && FirstSettled(statuses) != Some(PENDING)
    ensures r.Ok? <==> ChallengePasses(statuses)
    ensures FirstSettled(statuses).None? ==> r == Err(AcmeFailure)
    ensures FirstSettled(statuses) == Some(INVALID) ==> r == Err(ChallengeInvalid)
  {
    ghost var settled :| 0 <= settled < |statuses| && statuses[settled] != Some(PENDING);
    updates := 1;
    while statuses[updates - 1] == Some(PENDING)
      invariant 1 <= updates <= settled + 1
      invariant forall j :: 0 <= j < updates - 1 ==> statuses[j] == Some(PENDING)
      decreases settled + 1 - updates
    {
      updates := updates + 1;
    }
    FirstSettledAt(statuses, updates - 1);
    if statuses[updates - 1].None? {
      r := Err(AcmeFailure);
    } else if statuses[updates - 1].value == INVALID {
      r := Err(ChallengeInvalid);
    } else {
      r := Ok(());
    }
  }

  /** The server handed out an authorization that is still VALID. */
  predicate AlreadyValid(o: DomainOracle) {
    o.authorization.Some? && o.authorization.value.status == VALID
  }

  /** The server handed out an authorization that needs a DNS-01 challenge, and offers one. */
  predicate Challenged(o: DomainOracle) {
    && o.authorization.Some? && o.authorization.value.status != VALID
    && o.authorization.value.dns01.Some?
  }

  /** The oracle reaches the challenge only if its updates eventually settle or fail. */
  predicate Terminates(o: DomainOracle) {
    Challenged(o) && o.addResult.Ok? ==> Settles(o.statuses)
  }

  /** When the authorization flow for one domain succeeds. */
  predicate AuthorizationSucceeds(o: DomainOracle) {
    || AlreadyValid(o)
    || (Challenged(o) && o.addResult.Ok? && ChallengePasses(o.statuses) && o.removeResult.Ok?)
  }

  /** `authorizeDomain`: an ACME failure fetching the authorization is the outcome; a VALID
      authorization is used as it is, with no DNS call; otherwise the challenge is prepared and
      completed, and its record is removed only after the challenge completed normally. */
  method AuthorizeDomain(o: DomainOracle) returns (r: Outcome<()>, calls: seq<DnsCall>)
    requires Terminates(o)
    ensures r.Ok? <==> AuthorizationSucceeds(o)
    ensures o.authorization.None? ==> r == Err(AcmeFailure) && calls == []
    ensures AlreadyValid(o) ==> r.Ok? && calls == []
    ensures o.authorization.Some? && !AlreadyValid(o) && o.authorization.value.dns01.None? ==>
              r == Err(NoDnsChallenge) && calls == []
    ensures Challenged(o) && o.addResult.Err? ==> r == Err(o.addResult.error)
    ensures calls == [] <==> !Challenged(o)
    ensures calls != [] ==>
              && Challenged(o)
              && calls[0] == AddRecord(ChallengeRecordName(o.authorization.value.domain),
                                       o.authorization.value.dns01.value.digest)
    ensures |calls| <= 2
    ensures |calls| == 2 <==> Challenged(o) && o.addResult.Ok? && ChallengePasses(o.statuses)
    ensures |calls| == 2 ==> calls[1] == RemoveRecord(calls[0].name, calls[0].digest)
  {
    if o.authorization.None? {
      return Err(AcmeFailure), [];
    }
    var authorization := o.authorization.value;
    if authorization.status == VALID {
      return Ok(()), [];
    }
    var step := PrepareDnsChallenge(authorization, o.addResult);
    calls := step.calls;
    if step.result.Err? {
      return Err(step.result.error), calls;
    }
    var completion, _ := CompleteChallenge(o.statuses);
    if completion.Err? {
      return Err(completion.error), calls;
    }
    calls := calls + [step.result.value.cleanup];
    r := o.removeResult;
  }

  // ------------------------------------------------------------- packaging

  /** The text of several writers, in order. */
  function Concat(writers: seq<string>): string {
    if writers == [] then ""
    else Concat(writers[..|writers| - 1]) + writers[|writers| - 1]
  }

  /** One more writer appends its text. */
  lemma ConcatAppend(writers: seq<string>, writer: string)
    ensures Concat(writers + [writer]) == Concat(writers) + writer
  {
    assert (writers + [writer])[..|writers|] == writers;
  }

  /** A single writer contributes exactly its own text. */
  lemma ConcatSingle(writer: string)
    ensures Concat([writer]) == writer
  {
    ConcatAppend([], writer);
    assert [] + [writer] == [writer];
  }

  /** `base64EncodeWriter`: the writers' text, concatenated in order, as Base64 of its UTF-8
      bytes; decoding gives those bytes back. */
  method Base64EncodeWriter(writers: seq<string>) returns (r: string)
    ensures r == Base64(Utf8(Concat(writers)))
    ensures DecodeBase64(r) == Some(Utf8(Concat(writers)))
  {
    var current := "";
    for i := 0 to |writers|
      invariant current == Concat(writers[..i])
    {
      assert writers[..i + 1] == writers[..i] + [writers[i]];
      ConcatAppend(writers[..i], writers[i]);
      current := current + writers[i];
    }
    assert writers[..|writers|] == writers;
    r := Base64(Utf8(current));
    Base64RoundTrip(Utf8(current));
  }

  /** The content of one certificate file: the Base64 of the UTF-8 bytes of a PEM text. */
  function Encoded(pem: string): (r: string)
    ensures DecodeBase64(r) == Some(Utf8(pem))
  {
    Base64RoundTrip(Utf8(pem));
    Base64(Utf8(pem))
  }

  /** The four configured file names are pairwise different. */
  predicate DistinctNames(f: SecretFilenames) {
    && f.certificate != f.chain && f.certificate != f.key && f.certificate != f.fullchain
    && f.chain != f.key && f.chain != f.fullchain
    && f.key != f.fullchain
  }

  /** The text written for the full chain: the certificate followed by its chain. */
  function FullchainPem(signed: SignedCertificate): string {
    signed.certificatePem + Concat(signed.chainPems)
  }

  /** The certificate file map of `generateSignCertificate`: exactly the four configured names,
      which must be distinct; the chain and the fullchain entries hold the same content, the
      certificate followed by its chain. */
  function CertificateFiles(filenames: SecretFilenames, signed: SignedCertificate): (r: Outcome<map<string, string>>)
    ensures r.Err? <==> !DistinctNames(filenames)
    ensures r.Err? ==> r.error == DuplicateFileName
    ensures r.Ok? ==> r.value.Keys == {filenames.certificate, filenames.chain, filenames.key, filenames.fullchain}
    ensures r.Ok? ==> r.value[filenames.chain] == r.value[filenames.fullchain]
    ensures r.Ok? ==> DecodeBase64(r.value[filenames.certificate]) == Some(Utf8(signed.certificatePem))
    ensures r.Ok? ==> DecodeBase64(r.value[filenames.key]) == Some(Utf8(signed.keyPem))
    ensures r.Ok? ==> DecodeBase64(r.value[filenames.fullchain])
                      == Some(Utf8(signed.certificatePem) + Utf8(Concat(signed.chainPems)))
  {
    if !DistinctNames(filenames) then Err(DuplicateFileName)
    else
      var certificate := Encoded(signed.certificatePem);
      var fullchain := Encoded(FullchainPem(signed));
      var key := Encoded(signed.keyPem);
      Utf8Concat(signed.certificatePem, Concat(signed.chainPems));
      Ok(map[filenames.certificate := certificate, filenames.chain := fullchain,
             filenames.key := key, filenames.fullchain := fullchain])
  }

  /** With the default file names the certificate files can always be built. */
  lemma DefaultFilesAreBuilt(signed: SignedCertificate)
    ensures CertificateFiles(DefaultSecretFilenames, signed).Ok?
    ensures CertificateFiles(DefaultSecretFilenames, signed).value.Keys
            == {"certificate.pem", "chain.pem", "key.pem", "fullchain.pem"}
  {
  }

  /** `generateSignCertificate`: `signed` is the certificate the server signed and both downloads
      delivered, or `None` when requesting or downloading it threw. The response carries the
      requested domains, the file map, the expiry day and the ACME server. */
  method GenerateSignCertificate(domains: seq<string>, signed: Option<SignedCertificate>, filenames: SecretFilenames,
                                 acmeServer: string) returns (r: Outcome<CertificateResponse>)
    ensures r.Ok? <==> signed.Some? && DistinctNames(filenames)
    ensures signed.None? ==> r == Err(AcmeFailure)
    ensures signed.Some? && !DistinctNames(filenames) ==> r == Err(DuplicateFileName)
    ensures r.Ok? ==> r.value == CertificateResponse(domains, CertificateFiles(filenames, signed.value).value,
                                                     signed.value.notAfter, acmeServer)
  {
    if signed.None? {
      return Err(AcmeFailure);
    }
    var downloaded := signed.value;
    var certificate := Base64EncodeWriter([downloaded.certificatePem]);
    var chain := Base64EncodeWriter([FullchainPem(downloaded)]);
    var key := Base64EncodeWriter([downloaded.keyPem]);
    var fullchain := Base64EncodeWriter([FullchainPem(downloaded)]);
    ConcatSingle(downloaded.certificatePem);
    ConcatSingle(FullchainPem(downloaded));
    ConcatSingle(downloaded.keyPem);
    if !DistinctNames(filenames) {
      return Err(DuplicateFileName);
    }
    var certificateFiles := map[filenames.certificate := certificate, filenames.chain := chain,
                                filenames.key := key, filenames.fullchain := fullchain];
    r := Ok(CertificateResponse(domains, certificateFiles, downloaded.notAfter, acmeServer));
  }

  /** `calls` publishes the challenge record of `domain` with `digest` and, as the very next call,
      removes it again. */
  predicate Answered(calls: seq<DnsCall>, domain: string, digest: string) {
    exists j :: 0 <= j < |calls| - 1 && calls[j] == AddRecord(ChallengeRecordName(domain), digest)
                && calls[j + 1] == RemoveRecord(ChallengeRecordName(domain), digest)
  }

  /** `domain` counts as authorized after `calls`: its authorization was VALID already, or the
      record of its DNS-01 challenge was published and then removed. */
  predicate Authorized(o: DomainOracle, domain: string, calls: seq<DnsCall>) {
    || AlreadyValid(o)
    || (Challenged(o) && Answered(calls, domain, o.authorization.value.dns01.value.digest))
  }

  /** Every record that `calls` publishes is the challenge record of one of `domains`, with the
      digest of that domain's challenge. */
  predicate AddsOnlyRequested(calls: seq<DnsCall>, domains: seq<string>, oracles: seq<DomainOracle>)
    requires |oracles| == |domains|
  {
    forall j :: 0 <= j < |calls| && calls[j].AddRecord? ==>
      exists i :: 0 <= i < |domains| && calls[j].name == ChallengeRecordName(domains[i])
                  && Challenged(oracles[i])
                  && oracles[i].authorization.value.dns01 == Some(Dns01Challenge(calls[j].digest))
  }

  /** Later calls do not undo an authorization. */
  lemma AuthorizedExtends(o: DomainOracle, domain: string, calls: seq<DnsCall>, more: seq<DnsCall>)
    requires Authorized(o, domain, calls)
    ensures Authorized(o, domain, calls + more)
  {
    if !AlreadyValid(o) {
      var digest := o.authorization.value.dns01.value.digest;
      var j :| 0 <= j < |calls| - 1 && calls[j] == AddRecord(ChallengeRecordName(domain), digest)
               && calls[j + 1] == RemoveRecord(ChallengeRecordName(domain), digest);
      assert (calls + more)[j] == calls[j] && (calls + more)[j + 1] == calls[j + 1];
    }
  }

  /** The two calls of a completed challenge authorize its domain. */
  lemma AddThenRemoveAuthorizes(o: DomainOracle, domain: string, before: seq<DnsCall>, made: seq<DnsCall>)
    requires Challenged(o)
    requires |made| == 2 && made[0] == AddRecord(ChallengeRecordName(domain), o.authorization.value.dns01.value.digest)
    requires made[1] == RemoveRecord(made[0].name, made[0].digest)
    ensures Authorized(o, domain, before + made)
  {
    var calls := before + made;
    assert calls[|before|] == made[0] && calls[|before| + 1] == made[1];
  }

  /** A successful authorization of `domains[i]` extends the authorized prefix by one. */
  lemma AuthorizedStep(oracles: seq<DomainOracle>, domains: seq<string>, i: nat,
                       before: seq<DnsCall>, made: seq<DnsCall>)
    requires |oracles| == |domains| && i < |domains|
    requires forall j :: 0 <= j < i ==> AuthorizationSucceeds(oracles[j])
    requires forall j :: 0 <= j < i ==> Authorized(oracles[j], domains[j], before)
    requires AnswersFor(oracles[i], domains[i])
    requires AuthorizationSucceeds(oracles[i])
    requires |made| == 2 <==> Challenged(oracles[i]) && oracles[i].addResult.Ok? && ChallengePasses(oracles[i].statuses)
    requires made != [] ==>
               && Challenged(oracles[i])
               && made[0] == AddRecord(ChallengeRecordName(oracles[i].authorization.value.domain),
                                       oracles[i].authorization.value.dns01.value.digest)
    requires |made| == 2 ==> made[1] == RemoveRecord(made[0].name, made[0].digest)
    ensures forall j :: 0 <= j <= i ==> AuthorizationSucceeds(oracles[j])
    ensures forall j :: 0 <= j <= i ==> Authorized(oracles[j], domains[j], before + made)
  {
    forall j | 0 <= j < i ensures Authorized(oracles[j], domains[j], before + made) {
      AuthorizedExtends(oracles[j], domains[j], before, made);
    }
    if !AlreadyValid(oracles[i]) {
      AddThenRemoveAuthorizes(oracles[i], domains[i], before, made);
    }
  }

  /** Appending the calls of one domain's authorization keeps every published record requested. */
  lemma AddsOnlyRequestedStep(calls: seq<DnsCall>, made: seq<DnsCall>, domains: seq<string>,
                              oracles: seq<DomainOracle>, i: nat)
    requires |oracles| == |domains| && i < |domains|
    requires AddsOnlyRequested(calls, domains, oracles)
    requires made != [] ==>
               && Challenged(oracles[i])
               && made[0] == AddRecord(ChallengeRecordName(domains[i]), oracles[i].authorization.value.dns01.value.digest)
    requires forall j :: 1 <= j < |made| ==> made[j].RemoveRecord?
    ensures AddsOnlyRequested(calls + made, domains, oracles)
  {
    var all := calls + made;
    forall j | 0 <= j < |all| && all[j].AddRecord?
      ensures exists k :: 0 <= k < |domains| && all[j].name == ChallengeRecordName(domains[k])
                          && Challenged(oracles[k])
                          && oracles[k].authorization.value.dns01 == Some(Dns01Challenge(all[j].digest))
    {
      if j < |calls| {
        assert all[j] == calls[j];
      } else {
        assert all[j] == made[j - |calls|];
        assert j - |calls| == 0;
      }
    }
  }

  /** The authorization `o` hands out, if any, is one for `domain`. */
  predicate AnswersFor(o: DomainOracle, domain: string) {
    o.authorization.Some? ==> o.authorization.value.domain == domain
  }

  /** `requestCertificate`, with the domains authorized one after the other: `oracles[i]` answers
      for `domains[i]`. The first failed authorization is the outcome; when all succeed the
      certificate is signed and downloaded (`None` when that threw) and its files are packaged. */
  method RequestCertificate(domains: seq<string>, oracles: seq<DomainOracle>, signed: Option<SignedCertificate>,
                            filenames: SecretFilenames, acmeServer: string)
    returns (r: Outcome<CertificateResponse>, calls: seq<DnsCall>)
    requires |oracles| == |domains|
    requires forall i :: 0 <= i < |domains| ==> AnswersFor(oracles[i], domains[i])
    requires forall i :: 0 <= i < |oracles| ==> Terminates(oracles[i])
    ensures r.Ok? <==> && (forall i :: 0 <= i < |oracles| ==> AuthorizationSucceeds(oracles[i]))
                       && signed.Some? && DistinctNames(filenames)
    ensures (forall i :: 0 <= i < |oracles| ==> AuthorizationSucceeds(oracles[i])) && signed.None? ==>
              r == Err(AcmeFailure)
    ensures r.Ok? ==> r.value == CertificateResponse(domains, CertificateFiles(filenames, signed.value).value,
                                                     signed.value.notAfter, acmeServer)
    ensures r.Ok? ==> forall i :: 0 <= i < |domains| ==> Authorized(oracles[i], domains[i], calls)
    ensures AddsOnlyRequested(calls, domains, oracles)
    ensures forall j :: 0 <= j < |calls| && calls[j].RemoveRecord? ==>
              j > 0 && calls[j - 1] == AddRecord(calls[j].name, calls[j].digest)
  {
    calls := [];
    for i := 0 to |oracles|
      invariant forall j :: 0 <= j < i ==> AuthorizationSucceeds(oracles[j])
      invariant forall j :: 0 <= j < i ==> Authorized(oracles[j], domains[j], calls)
      invariant AddsOnlyRequested(calls, domains, oracles)
      invariant forall j :: 0 <= j < |calls| && calls[j].RemoveRecord? ==>
                  j > 0 && calls[j - 1] == AddRecord(calls[j].name, calls[j].digest)
    {
      var authorized, made := AuthorizeDomain(oracles[i]);
      ghost var before := calls;
      calls := calls + made;
      RemovalsFollowAdditions(before, made);
      AddsOnlyRequestedStep(before, made, domains, oracles, i);
      if authorized.Err? {
        return Err(authorized.error), calls;
      }
      AuthorizedStep(oracles, domains, i, before, made);
    }
    r := GenerateSignCertificate(domains, signed, filenames, acmeServer);
  }

  /** Appending one domain's calls keeps every removal right after the addition of its record. */
  lemma RemovalsFollowAdditions(before: seq<DnsCall>, made: seq<DnsCall>)
    requires forall j :: 0 <= j < |before| && before[j].RemoveRecord? ==>
               j > 0 && before[j - 1] == AddRecord(before[j].name, before[j].digest)
    requires |made| <= 2 && (made != [] ==> made[0].AddRecord?)
    requires |made| == 2 ==> made[1] == RemoveRecord(made[0].name, made[0].digest)
    ensures var calls := before + made;
      forall j :: 0 <= j < |calls| && calls[j].RemoveRecord? ==>
        j > 0 && calls[j - 1] == AddRecord(calls[j].name, calls[j].digest)
  {
    var calls := before + made;
    forall j | 0 <= j < |calls| && calls[j].RemoveRecord?
      ensures j > 0 && calls[j - 1] == AddRecord(calls[j].name, calls[j].digest)
    {
      if j < |before| {
        assert calls[j] == before[j] && calls[j - 1] == before[j - 1];
      } else {
        assert calls[j] == made[j - |before|];
        assert j - |before| == 1;
        assert calls[j - 1] == made[0];
      }
    }
  }
}
