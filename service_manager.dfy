/** Reconciliation of the services of one namespace: reading a service's annotations into a
    certificate request, deciding between creating a secret, renewing it and doing nothing, and
    carrying the request out while the service's name is marked as in progress. Signing a
    certificate is represented by an `issue` function from domains to the signing outcome. */
module ServiceManager {
  import opened Wrappers
  import opened Strings
  import opened Model
  import opened Json
  import opened SecretManager

  /** A Kubernetes service: its name and its annotations (`null` when it has none). */
  datatype Service = Service(name: string, annotations: Option<map<string, string>>)

  /** The ACME signing run for a list of domains. */
  type Issuer = seq<string> -> Outcome<CertificateResponse>

  /** `isCertificateRequest`: the service has annotations and one of them is `acme/certificate`. */
  predicate IsCertificateRequest(service: Service) {
    service.annotations.Some? && REQUEST_ANNOTATION in service.annotations.value
  }

  /** `getCertificateDomains`: an annotation starting with `[` is a JSON list of domains, which
      must not be empty; any other annotation is the one domain it names. */
  function GetCertificateDomains(requestAnnotation: string): (r: Outcome<seq<string>>)
    ensures r.Ok? ==> r.value != []
    ensures !StartsWith(requestAnnotation, "[") ==> r == Ok([requestAnnotation])
    ensures StartsWith(requestAnnotation, "[") ==>
              && (FromJson(requestAnnotation).None? ==> r == Err(MalformedDomainList))
              && (FromJson(requestAnnotation) == Some([]) ==> r == Err(NoDomainsSpecified))
              && (r.Ok? <==> FromJson(requestAnnotation).Some? && FromJson(requestAnnotation).value != [])
              && (r.Ok? ==> FromJson(requestAnnotation) == Some(r.value))
  {
    if StartsWith(requestAnnotation, "[") then
      match FromJson(requestAnnotation)
      case None => Err(MalformedDomainList)
      case Some(domains) => if domains == [] then Err(NoDomainsSpecified) else Ok(domains)
    else Ok([requestAnnotation])
  }

  /** A non-empty list written as JSON is read back as that list. */
  lemma DomainListRoundTrip(domains: seq<string>)
    requires domains != []
    ensures GetCertificateDomains(ToJson(domains)) == Ok(domains)
  {
    RoundTrip(domains);
    assert ToJson(domains)[..1] == "[";
  }

  /** An empty JSON list names no domain. */
  lemma EmptyDomainListFails()
    ensures GetCertificateDomains(ToJson([])) == Err(NoDomainsSpecified)
  {
    RoundTrip([]);
    assert ToJson([])[..1] == "[";
  }

  /** The secret name derived from a domain: every `.` becomes `-`, then `-tls` is appended. */
  function DefaultSecretName(domain: string): (r: string)
    ensures |r| == |domain| + 4 && EndsWith(r, "-tls")
    ensures forall i :: 0 <= i < |domain| ==> r[i] == (if domain[i] == '.' then '-' else domain[i])
    ensures '.' !in r
  {
    var r := ReplaceChar(domain, '.', '-') + "-tls";
    assert forall i :: 0 <= i < |r| ==> r[i] != '.' by {
      forall i | 0 <= i < |r| ensures r[i] != '.' {
        if i >= |domain| { assert r[i] == "-tls"[i - |domain|]; }
      }
    }
    r
  }

  lemma DefaultSecretNameExample(domain: string)
    requires domain == "test.k8s.io"
    ensures DefaultSecretName(domain) == "test-k8s-io-tls"
  {
    var r := DefaultSecretName(domain);
    var expected := "test-k8s-io-tls";
    assert |r| == |expected|;
    forall i | 0 <= i < |r| ensures r[i] == expected[i] {
      if i >= |domain| {
        assert r[i] == "-tls"[i - |domain|];
      }
    }
  }

  /** `getSecretName`: an explicit `acme/secretName` wins whatever the domains; without it a
      single domain gives the default name, several domains are an error, and no domain fails
      as the first element of an empty list does. */
  function GetSecretName(domains: seq<string>, secretName: Option<string>): (r: Outcome<string>)
    ensures secretName.Some? ==> r == Ok(secretName.value)
    ensures secretName.None? ==>
              && (|domains| >= 2 <==> r == Err(SecretNameRequired))
              && (|domains| == 0 <==> r == Err(NoDomain))
              && (|domains| == 1 <==> r.Ok?)
              && (r.Ok? ==> r.value == DefaultSecretName(domains[0]))
  {
    if secretName.Some? then Ok(secretName.value)
    else if |domains| >= 2 then Err(SecretNameRequired)
    else if |domains| == 0 then Err(NoDomain)
    else Ok(DefaultSecretName(domains[0]))
  }

  /** The value of `acme/secretName`, if the service sets it. */
  function ExplicitSecretName(annotations: map<string, string>): Option<string> {
    if SECRET_NAME_ANNOTATION in annotations then Some(annotations[SECRET_NAME_ANNOTATION]) else None
  }

  /** The domains and the secret name a service asks for (the first steps of
      `prepareCertificateRequest`); dereferencing a missing `acme/certificate` fails, and a failure
      to read the domains or to name the secret is the outcome. */
  function RequestedSecret(service: Service): (r: Outcome<(seq<string>, string)>)
    ensures !IsCertificateRequest(service) ==> r == Err(MissingRequestAnnotation)
    ensures IsCertificateRequest(service) ==>
              var annotations := service.annotations.value;
              var domains := GetCertificateDomains(annotations[REQUEST_ANNOTATION]);
              && (domains.Err? ==> r == Err(domains.error))
              && (domains.Ok? && GetSecretName(domains.value, ExplicitSecretName(annotations)).Err? ==>
                    r == Err(GetSecretName(domains.value, ExplicitSecretName(annotations)).error))
              && (r.Ok? <==> domains.Ok? && GetSecretName(domains.value, ExplicitSecretName(annotations)).Ok?)
    ensures r.Ok? ==>
              var annotations := service.annotations.value;
              && IsCertificateRequest(service) && r.value.0 != []
              && GetCertificateDomains(annotations[REQUEST_ANNOTATION]) == Ok(r.value.0)
              && GetSecretName(r.value.0, ExplicitSecretName(annotations)) == Ok(r.value.1)
  {
    if !IsCertificateRequest(service) then Err(MissingRequestAnnotation)
    else
      var annotations := service.annotations.value;
      match GetCertificateDomains(annotations[REQUEST_ANNOTATION])
      case Err(e) => Err(e)
      case Ok(domains) =>
        match GetSecretName(domains, ExplicitSecretName(annotations))
        case Err(e) => Err(e)
        case Ok(secretName) => Ok((domains, secretName))
  }

  /** The decision of `prepareCertificateRequest` once the existing secret is known: no secret
      means a new certificate, a secret that needs renewal means a renewal, and otherwise there
      is nothing to do. */
  function Decide(domains: seq<string>, secretName: string, existing: Option<Secret>, today: Day)
    : (r: Outcome<Option<CertificateRequest>>)
    ensures existing.None? ==> r == Ok(Some(CertificateRequest(secretName, domains, false)))
    ensures existing.Some? ==>
              && (CertificateNeedsRenewal(domains, existing.value, today) == Ok(true) <==>
                  r == Ok(Some(CertificateRequest(secretName, domains, true))))
              && (CertificateNeedsRenewal(domains, existing.value, today) == Ok(false) <==> r == Ok(None))
              && (CertificateNeedsRenewal(domains, existing.value, today).Err? <==> r.Err?)
              && (CertificateNeedsRenewal(domains, existing.value, today).Err? ==>
                    r == Err(CertificateNeedsRenewal(domains, existing.value, today).error))
  {
    if existing.None? then Ok(Some(CertificateRequest(secretName, domains, false)))
    else
      match CertificateNeedsRenewal(domains, existing.value, today)
      case Err(e) => Err(e)
      case Ok(renew) => if renew then Ok(Some(CertificateRequest(secretName, domains, true))) else Ok(None)
  }

  /** `prepareCertificateRequest` against the secrets of the cluster: a failure to read the
      request is the outcome; with no secret under the requested name the service asks for a new
      certificate; otherwise the renewal check decides between a renewal, nothing to do, and its
      own failure. */
  function PreparedRequest(store: Store, namespace: string, service: Service, today: Day)
    : (r: Outcome<Option<CertificateRequest>>)
    ensures RequestedSecret(service).Err? ==> r == Err(RequestedSecret(service).error)
    ensures RequestedSecret(service).Ok? ==>
              var (domains, secretName) := RequestedSecret(service).value;
              && (SecretKey(namespace, secretName) !in store ==>
                    r == Ok(Some(CertificateRequest(secretName, domains, false))))
              && (SecretKey(namespace, secretName) in store ==>
                    var renewal := CertificateNeedsRenewal(domains, Lookup(store, namespace, secretName).value, today);
                    && (renewal == Ok(true) <==> r == Ok(Some(CertificateRequest(secretName, domains, true))))
                    && (renewal == Ok(false) <==> r == Ok(None))
                    && (renewal.Err? ==> r == Err(renewal.error)))
    ensures !IsCertificateRequest(service) ==> r.Err?
    ensures r.Ok? && r.value.Some? ==>
              var request := r.value.value;
              && RequestedSecret(service) == Ok((request.domains, request.secretName))
              && (request.renew <==> SecretKey(namespace, request.secretName) in store)
              && (request.renew ==>
                    CertificateNeedsRenewal(request.domains, Lookup(store, namespace, request.secretName).value, today) == Ok(true))
    ensures r == Ok(None) ==>
              && RequestedSecret(service).Ok?
              && var (domains, secretName) := RequestedSecret(service).value;
                 && SecretKey(namespace, secretName) in store
                 && CertificateNeedsRenewal(domains, Lookup(store, namespace, secretName).value, today) == Ok(false)
  {
    match RequestedSecret(service)
    case Err(e) => Err(e)
    case Ok((domains, secretName)) => Decide(domains, secretName, Lookup(store, namespace, secretName), today)
  }

  /** A service naming one domain, with no secret name and no secret yet, asks for a new
      certificate stored under the default secret name. */
  lemma SingleDomainRequest(store: Store, namespace: string, service: Service, domain: string, today: Day)
    requires service.annotations.Some?
    requires service.annotations.value == map[REQUEST_ANNOTATION := domain]
    requires !StartsWith(domain, "[")
    requires SecretKey(namespace, DefaultSecretName(domain)) !in store
    ensures PreparedRequest(store, namespace, service, today)
            == Ok(Some(CertificateRequest(DefaultSecretName(domain), [domain], false)))
  {
  }

  /** An explicit `acme/secretName` is used as given, whatever the domains. */
  lemma CustomSecretNameRequest(store: Store, namespace: string, service: Service, domains: string,
                                secretName: string, today: Day)
    requires service.annotations.Some?
    requires service.annotations.value == map[REQUEST_ANNOTATION := domains, SECRET_NAME_ANNOTATION := secretName]
    requires GetCertificateDomains(domains).Ok?
    requires SecretKey(namespace, secretName) !in store
    ensures PreparedRequest(store, namespace, service, today)
            == Ok(Some(CertificateRequest(secretName, GetCertificateDomains(domains).value, false)))
  {
  }

  /** The write that carries out a request: an edit of the secret for a renewal, a creation
      otherwise, under the request's secret name either way. */
  function Written(store: Store, namespace: string, request: CertificateRequest, certificate: CertificateResponse)
    : (r: Outcome<Store>)
    ensures request.renew ==> r == Updated(store, namespace, request.secretName, certificate)
    ensures !request.renew ==> r == Inserted(store, namespace, request.secretName, certificate)
    ensures r.Ok? ==> r.value.Keys == store.Keys + {SecretKey(namespace, request.secretName)}
    ensures r.Ok? ==> forall k :: k in store && k != SecretKey(namespace, request.secretName) ==> r.value[k] == store[k]
  {
    if request.renew then Updated(store, namespace, request.secretName, certificate)
    else Inserted(store, namespace, request.secretName, certificate)
  }

  /** What one started reconciliation of `service` does to the secrets. Any failure leaves them
      as they were. */
  function ReconcileEffect(store: Store, namespace: string, service: Service, today: Day, issue: Issuer): Store {
    match PreparedRequest(store, namespace, service, today)
    case Err(_) => store
    case Ok(None) => store
    case Ok(Some(request)) =>
      match issue(request.domains)
      case Err(_) => store
      case Ok(certificate) =>
        match Written(store, namespace, request, certificate)
        case Err(_) => store
        case Ok(written) => written
  }

  /** Reconciling writes at most the secret that the service names, in its own namespace. */
  lemma ReconcileTouchesOnlyItsSecret(store: Store, namespace: string, service: Service, today: Day, issue: Issuer,
                                      k: SecretKey)
    requires k in store && k.namespace != namespace
    ensures var after := ReconcileEffect(store, namespace, service, today, issue);
            k in after && after[k] == store[k]
  {
  }

  /** Reconciliation settles: once a request has been carried out with a certificate for the
      requested domains that is not yet due to expire, preparing the same service again asks
      for nothing. */
  lemma {:induction false} ReconcileIsIdempotent(store: Store, namespace: string, service: Service, today: Day,
                                                 certificate: CertificateResponse)
    requires PreparedRequest(store, namespace, service, today).Ok?
    requires PreparedRequest(store, namespace, service, today).value.Some?
    requires var request := PreparedRequest(store, namespace, service, today).value.value;
             && certificate.domains == request.domains
             && Written(store, namespace, request, certificate).Ok?
    requires today <= certificate.expiryDate - 2
    ensures var request := PreparedRequest(store, namespace, service, today).value.value;
            PreparedRequest(Written(store, namespace, request, certificate).value, namespace, service, today) == Ok(None)
  {
    var request := PreparedRequest(store, namespace, service, today).value.value;
    WrittenCertificateRenewal(store, namespace, request.secretName, certificate, today);
  }

  /** The reconciliation of the services of one namespace. */
  class ServiceManager {
    const namespace: string
    const store: SecretStore
    /** Names of the services whose certificate is being worked on. */
    var inProgress: set<string>

    constructor (namespace: string, store: SecretStore)
      ensures this.namespace == namespace && this.store == store && inProgress == {}
    {
      this.namespace := namespace;
      this.store := store;
      inProgress := {};
    }

    /** `prepareCertificateRequest`, looking the secret up through the API. */
    method PrepareCertificateRequest(service: Service, today: Day) returns (r: Outcome<Option<CertificateRequest>>)
      ensures r == PreparedRequest(store.secrets, namespace, service, today)
    {
      var requested := RequestedSecret(service);
      if requested.Err? {
        return Err(requested.error);
      }
      var (domains, secretName) := requested.value;
      var secretOption := store.GetSecret(namespace, secretName);
      r := Decide(domains, secretName, secretOption, today);
    }

    /** `handleCertificateRequest`: signs a certificate for the request's domains and stores it,
        editing the existing secret for a renewal and creating one otherwise. */
    method HandleCertificateRequest(request: CertificateRequest, issue: Issuer) returns (r: Outcome<()>)
      modifies store
      ensures issue(request.domains).Err? ==> r == Err(issue(request.domains).error) && store.secrets == old(store.secrets)
      ensures issue(request.domains).Ok? ==>
                var written := Written(old(store.secrets), namespace, request, issue(request.domains).value);
                && (r.Ok? <==> written.Ok?)
                && (r.Err? ==> r.error == written.error && store.secrets == old(store.secrets))
                && (r.Ok? ==> store.secrets == written.value)
    {
      var certificateResponse := issue(request.domains);
      if certificateResponse.Err? {
        return Err(certificateResponse.error);
      }
      if request.renew {
        r := store.UpdateCertificate(namespace, request.secretName, certificateResponse.value);
      } else {
        r := store.InsertCertificate(namespace, request.secretName, certificateResponse.value);
      }
    }

    /** `reconcileService`, run to completion: work starts only for a service that requests a
        certificate and is not already in progress; its name is marked while the work runs and
        unmarked afterwards, whether the work succeeded or failed. */
    method ReconcileService(service: Service, today: Day, issue: Issuer) returns (started: bool)
      modifies this, store
      ensures started <==> IsCertificateRequest(service) && service.name !in old(inProgress)
      ensures inProgress == old(inProgress)
      ensures store.secrets == if started then ReconcileEffect(old(store.secrets), namespace, service, today, issue)
                               else old(store.secrets)
    {
      started := IsCertificateRequest(service) && service.name !in inProgress;
      if !started {
        return;
      }
      inProgress := inProgress + {service.name};
      var request := PrepareCertificateRequest(service, today);
      if request.Ok? && request.value.Some? {
        var _ := HandleCertificateRequest(request.value.value, issue);
      }
      inProgress := inProgress - {service.name};
    }
  }
}
