/** Certificates kept as Kubernetes secrets: the lookup of a secret by name in a namespace
    listing, the two writes (create and edit) that store a signed certificate, and the rule that
    decides whether a stored certificate must be renewed. The cluster's secrets are a map from
    (namespace, name) to the secret's annotations and data. */
module SecretManager {
  import opened Wrappers
  import opened Model
  import opened Json
  import opened Dates

  datatype SecretKey = SecretKey(namespace: string, name: string)
  datatype SecretBody = SecretBody(annotations: map<string, string>, data: map<string, string>)
  /** A secret as the API lists it. */
  datatype Secret = Secret(namespace: string, name: string, annotations: map<string, string>, data: map<string, string>)

  type Store = map<SecretKey, SecretBody>

  function KeyOf(s: Secret): SecretKey {
    SecretKey(s.namespace, s.name)
  }

  function BodyOf(s: Secret): SecretBody {
    SecretBody(s.annotations, s.data)
  }

  /** The secret stored under `(namespace, name)`, if any. */
  function Lookup(store: Store, namespace: string, name: string): (r: Option<Secret>)
    ensures r.None? <==> SecretKey(namespace, name) !in store
    ensures r.Some? ==> KeyOf(r.value) == SecretKey(namespace, name)
                        && BodyOf(r.value) == store[SecretKey(namespace, name)]
  {
    var key := SecretKey(namespace, name);
    if key in store then Some(Secret(namespace, name, store[key].annotations, store[key].data)) else None
  }

  /** `items` is what listing the secrets of `namespace` returns: each listed secret is stored
      under its key, and every stored secret of the namespace is listed. */
  predicate ListingOf(store: Store, namespace: string, items: seq<Secret>) {
    && (forall i :: 0 <= i < |items| ==>
          items[i].namespace == namespace && KeyOf(items[i]) in store && store[KeyOf(items[i])] == BodyOf(items[i]))
    && (forall k :: k in store && k.namespace == namespace ==> exists i :: 0 <= i < |items| && KeyOf(items[i]) == k)
  }

  // ------------------------------------------------------------- getSecret

  /** `getSecret` on a listing: the last listed secret called `name`. */
  function LastNamed(items: seq<Secret>, name: string): (r: Option<Secret>)
    ensures r.None? <==> forall i :: 0 <= i < |items| ==> items[i].name != name
    ensures r.Some? ==> exists i :: 0 <= i < |items| && items[i] == r.value && r.value.name == name
                          && forall j :: i < j < |items| ==> items[j].name != name
  {
    if items == [] then None
    else if items[|items| - 1].name == name then Some(items[|items| - 1])
    else LastNamed(items[..|items| - 1], name)
  }

  /** Whatever order the API lists the secrets of a namespace in, `getSecret` finds the one
      stored under that name. */
  lemma {:induction false} LastNamedInListing(store: Store, namespace: string, items: seq<Secret>, name: string)
    requires ListingOf(store, namespace, items)
    ensures LastNamed(items, name) == Lookup(store, namespace, name)
  {
    var key := SecretKey(namespace, name);
    if key in store {
      var i :| 0 <= i < |items| && KeyOf(items[i]) == key;
      assert items[i].name == name;
      var s := LastNamed(items, name).value;
      assert KeyOf(s) == key;
    }
  }

  // ------------------------------------------------------- the two writes

  /** The three annotations that describe a stored certificate. */
  function CertificateAnnotations(certificate: CertificateResponse): (r: map<string, string>)
    ensures r.Keys == {EXPIRY_ANNOTATION, ACME_CA_ANNOTATION, REQUEST_ANNOTATION}
    ensures r[ACME_CA_ANNOTATION] == certificate.ca
  {
    map[EXPIRY_ANNOTATION := FormatDate(certificate.expiryDate),
        ACME_CA_ANNOTATION := certificate.ca,
        REQUEST_ANNOTATION := ToJson(certificate.domains)]
  }

  /** The expiry and domain annotations read back as the day and the domains they were written
      from. */
  lemma AnnotationsReadBack(certificate: CertificateResponse)
    ensures ParseDate(CertificateAnnotations(certificate)[EXPIRY_ANNOTATION]) == Some(certificate.expiryDate)
    ensures FromJson(CertificateAnnotations(certificate)[REQUEST_ANNOTATION]) == Some(certificate.domains)
  {
    var r := CertificateAnnotations(certificate);
    assert r[EXPIRY_ANNOTATION] == FormatDate(certificate.expiryDate);
    assert r[REQUEST_ANNOTATION] == ToJson(certificate.domains);
    DateRoundTrip(certificate.expiryDate);
    RoundTrip(certificate.domains);
  }

  /** `insertCertificate` on the store: a new secret whose annotations are exactly the three
      certificate annotations and whose data are the certificate files. Creating a secret
      whose name is taken fails. */
  function Inserted(store: Store, namespace: string, name: string, certificate: CertificateResponse): (r: Outcome<Store>)
    ensures r.Err? <==> SecretKey(namespace, name) in store
    ensures r.Err? ==> r.error == SecretExists
    ensures r.Ok? ==> r.value.Keys == store.Keys + {SecretKey(namespace, name)}
    ensures r.Ok? ==> forall k :: k in store ==> r.value[k] == store[k]
    ensures r.Ok? ==> r.value[SecretKey(namespace, name)]
                      == SecretBody(CertificateAnnotations(certificate), certificate.certificateFiles)
  {
    var key := SecretKey(namespace, name);
    if key in store then Err(SecretExists)
    else Ok(store[key := SecretBody(CertificateAnnotations(certificate), certificate.certificateFiles)])
  }

  /** `updateCertificate` on the store: the data are replaced by the certificate files, the three
      certificate annotations are set, every other annotation and every other secret stays.
      Editing a secret that does not exist fails. */
  function Updated(store: Store, namespace: string, name: string, certificate: CertificateResponse): (r: Outcome<Store>)
    ensures r.Err? <==> SecretKey(namespace, name) !in store
    ensures r.Err? ==> r.error == SecretMissing
    ensures r.Ok? ==> r.value.Keys == store.Keys
    ensures r.Ok? ==> forall k :: k in store && k != SecretKey(namespace, name) ==> r.value[k] == store[k]
    ensures r.Ok? ==>
      var before := store[SecretKey(namespace, name)];
      var after := r.value[SecretKey(namespace, name)];
      && after.data == certificate.certificateFiles
      && after.annotations.Keys == before.annotations.Keys + CertificateAnnotations(certificate).Keys
      && (forall a :: a in after.annotations && a in CertificateAnnotations(certificate) ==>
            after.annotations[a] == CertificateAnnotations(certificate)[a])
      && (forall a :: a in before.annotations && a !in CertificateAnnotations(certificate) ==>
            after.annotations[a] == before.annotations[a])
  {
    var key := SecretKey(namespace, name);
    if key !in store then Err(SecretMissing)
    else
      var annotations := store[key].annotations + CertificateAnnotations(certificate);
      Ok(store[key := SecretBody(annotations, certificate.certificateFiles)])
  }

  // ------------------------------------------------------------ renewal rule

  /** `certificateIsExpiring`: renewal is due once `today` is strictly after two days before the
      expiry day. A secret without an expiry annotation is not expiring; one whose annotation is
      not a date fails, as `LocalDate.parse` throws. */
  function CertificateIsExpiring(secret: Secret, today: Day): (r: Outcome<bool>)
    ensures EXPIRY_ANNOTATION !in secret.annotations ==> r == Ok(false)
    ensures r.Err? <==> EXPIRY_ANNOTATION in secret.annotations && ParseDate(secret.annotations[EXPIRY_ANNOTATION]).None?
    ensures r.Err? ==> r.error == MalformedDate
    ensures r == Ok(true) <==> (EXPIRY_ANNOTATION in secret.annotations
                               && exists e :: ParseDate(secret.annotations[EXPIRY_ANNOTATION]) == Some(e) && today > e - 2)
  {
    if EXPIRY_ANNOTATION !in secret.annotations then Ok(false)
    else
      match ParseDate(secret.annotations[EXPIRY_ANNOTATION])
      case None => Err(MalformedDate)
      case Some(expiry) => Ok(today > expiry - 2)
  }

  /** Every requested domain is among the stored ones. */
  predicate ContainsAll(stored: seq<string>, requested: seq<string>) {
    forall d :: d in requested ==> d in stored
  }

  /** `haveDomainsChanged`: the stored list differs in size from the requested one, or lacks one
      of the requested domains. A secret without a domain annotation has not changed; one whose
      annotation is not a JSON string array fails. */
  function HaveDomainsChanged(domains: seq<string>, secret: Secret): (r: Outcome<bool>)
    ensures REQUEST_ANNOTATION !in secret.annotations ==> r == Ok(false)
    ensures r.Err? <==> REQUEST_ANNOTATION in secret.annotations && FromJson(secret.annotations[REQUEST_ANNOTATION]).None?
    ensures r.Err? ==> r.error == MalformedDomainList
    ensures r == Ok(true) <==> (REQUEST_ANNOTATION in secret.annotations
              && exists stored :: FromJson(secret.annotations[REQUEST_ANNOTATION]) == Some(stored)
                                  && (|stored| != |domains| || !ContainsAll(stored, domains)))
  {
    if REQUEST_ANNOTATION !in secret.annotations then Ok(false)
    else
      match FromJson(secret.annotations[REQUEST_ANNOTATION])
      case None => Err(MalformedDomainList)
      case Some(stored) => Ok(|stored| != |domains| || !ContainsAll(stored, domains))
  }

  /** `certificateNeedsRenewal`: both checks run, the expiry check first, so a failure of either
      is the outcome; otherwise renewal is due when the certificate expires or its domains
      changed. */
  function CertificateNeedsRenewal(domains: seq<string>, secret: Secret, today: Day): (r: Outcome<bool>)
    ensures CertificateIsExpiring(secret, today).Err? ==> r == CertificateIsExpiring(secret, today)
    ensures CertificateIsExpiring(secret, today).Ok? && HaveDomainsChanged(domains, secret).Err? ==>
              r == HaveDomainsChanged(domains, secret)
    ensures r.Ok? <==> CertificateIsExpiring(secret, today).Ok? && HaveDomainsChanged(domains, secret).Ok?
    ensures r.Ok? ==> r.value == (CertificateIsExpiring(secret, today).value || HaveDomainsChanged(domains, secret).value)
  {
    var isExpiring := CertificateIsExpiring(secret, today);
    var domainsChanged := HaveDomainsChanged(domains, secret);
    if isExpiring.Err? then isExpiring
    else if domainsChanged.Err? then domainsChanged
    else Ok(isExpiring.value || domainsChanged.value)
  }

  // ------------------------------------------------------------ properties

  /** A secret that expired yesterday is renewed, whatever its domains. */
  lemma ExpiredYesterdayNeedsRenewal(secret: Secret, domains: seq<string>, today: Day)
    requires EXPIRY_ANNOTATION in secret.annotations && secret.annotations[EXPIRY_ANNOTATION] == FormatDate(today - 1)
    requires HaveDomainsChanged(domains, secret).Ok?
    ensures CertificateNeedsRenewal(domains, secret, today) == Ok(true)
  {
    DateRoundTrip(today - 1);
  }

  /** Once expiring, a certificate stays expiring on every later day. */
  lemma ExpiringStaysExpiring(secret: Secret, today: Day, later: Day)
    requires today <= later
    requires CertificateIsExpiring(secret, today) == Ok(true)
    ensures CertificateIsExpiring(secret, later) == Ok(true)
  {
  }

  lemma {:induction false} MultisetContainsAll(stored: seq<string>, requested: seq<string>)
    requires multiset(stored) == multiset(requested)
    ensures ContainsAll(stored, requested) && |stored| == |requested|
  {
    assert |multiset(stored)| == |multiset(requested)|;
    forall d | d in requested ensures d in stored {
      assert d in multiset(requested);
    }
  }

  /** Reordering the domains is not a change. */
  lemma {:induction false} ReorderingIsNoChange(secret: Secret, stored: seq<string>, domains: seq<string>)
    requires REQUEST_ANNOTATION in secret.annotations && secret.annotations[REQUEST_ANNOTATION] == ToJson(stored)
    requires multiset(stored) == multiset(domains)
    ensures HaveDomainsChanged(domains, secret) == Ok(false)
  {
    RoundTrip(stored);
    MultisetContainsAll(stored, domains);
  }

  /** A stored `["test1", "test3"]` against a requested `["test1", "test2"]` is a change. */
  lemma ReplacedDomainIsChange(secret: Secret, stored: seq<string>, requested: seq<string>)
    requires stored == ["test1", "test3"] && requested == ["test1", "test2"]
    requires REQUEST_ANNOTATION in secret.annotations && secret.annotations[REQUEST_ANNOTATION] == ToJson(stored)
    ensures HaveDomainsChanged(requested, secret) == Ok(true)
  {
    RoundTrip(stored);
    assert requested[1] !in stored;
  }

  /** For a request without repeated domains, "not changed" means the stored domains are the
      requested ones as a set. */
  lemma {:induction false} UnchangedDistinctMeansSameSet(secret: Secret, stored: seq<string>, domains: seq<string>)
    requires REQUEST_ANNOTATION in secret.annotations && FromJson(secret.annotations[REQUEST_ANNOTATION]) == Some(stored)
    requires forall i, j :: 0 <= i < j < |domains| ==> domains[i] != domains[j]
    requires HaveDomainsChanged(domains, secret) == Ok(false)
    ensures (set d | d in stored) == (set d | d in domains)
  {
    var s := set d | d in stored;
    var q := set d | d in domains;
    assert q <= s;
    DistinctCardinality(domains);
    SetCardinalityAtMostLength(stored);
    SubsetOfSameSize(q, s);
  }

  lemma {:induction false} DistinctCardinality(ds: seq<string>)
    requires forall i, j :: 0 <= i < j < |ds| ==> ds[i] != ds[j]
    ensures |set d | d in ds| == |ds|
  {
    if ds != [] {
      var init := ds[..|ds| - 1];
      DistinctCardinality(init);
      assert (set d | d in ds) == (set d | d in init) + {ds[|ds| - 1]};
      assert ds[|ds| - 1] !in init;
    }
  }

  lemma {:induction false} SetCardinalityAtMostLength(ds: seq<string>)
    ensures |set d | d in ds| <= |ds|
  {
    if ds != [] {
      var init := ds[..|ds| - 1];
      SetCardinalityAtMostLength(init);
      assert (set d | d in ds) == (set d | d in init) + {ds[|ds| - 1]};
    }
  }

  lemma {:induction false} SubsetCardinality(q: set<string>, s: set<string>)
    requires q <= s
    ensures |q| <= |s|
    decreases q
  {
    if q != {} {
      var y :| y in q;
      SubsetCardinality(q - {y}, s - {y});
    }
  }

  lemma SubsetOfSameSize(q: set<string>, s: set<string>)
    requires q <= s && |s| <= |q|
    ensures q == s
  {
    if q != s {
      var x :| x in s && x !in q;
      SubsetCardinality(q, s - {x});
    }
  }

  /** The "not changed" rule is weaker than set equality: a stored `["a", "b"]` counts as
      unchanged for a request of `["a", "a"]`. */
  lemma UnchangedIsNotSetEquality(secret: Secret)
    requires REQUEST_ANNOTATION in secret.annotations && secret.annotations[REQUEST_ANNOTATION] == ToJson(["a", "b"])
    ensures HaveDomainsChanged(["a", "a"], secret) == Ok(false)
  {
    RoundTrip(["a", "b"]);
  }

  /** A secret carrying the annotations of `certificate` needs renewal for the certificate's own
      domains exactly when the certificate is due to expire. */
  lemma CarriesCertificateRenewal(secret: Secret, certificate: CertificateResponse, today: Day)
    requires forall a :: a in CertificateAnnotations(certificate) ==>
               a in secret.annotations && secret.annotations[a] == CertificateAnnotations(certificate)[a]
    ensures CertificateNeedsRenewal(certificate.domains, secret, today) == Ok(today > certificate.expiryDate - 2)
  {
    var annotations := CertificateAnnotations(certificate);
    AnnotationsReadBack(certificate);
    assert EXPIRY_ANNOTATION in annotations && REQUEST_ANNOTATION in annotations;
    assert CertificateIsExpiring(secret, today) == Ok(today > certificate.expiryDate - 2);
    assert ContainsAll(certificate.domains, certificate.domains);
    assert HaveDomainsChanged(certificate.domains, secret) == Ok(false);
  }

  /** After either write, the stored certificate needs renewal for its own domains exactly when
      it is due to expire: the written annotations read back as written. */
  lemma {:induction false} WrittenCertificateRenewal(store: Store, namespace: string, name: string,
                                                       certificate: CertificateResponse, today: Day)
    requires Inserted(store, namespace, name, certificate).Ok? || Updated(store, namespace, name, certificate).Ok?
    ensures var after := if Inserted(store, namespace, name, certificate).Ok?
                         then Inserted(store, namespace, name, certificate).value
                         else Updated(store, namespace, name, certificate).value;
      var secret := Lookup(after, namespace, name);
      && secret.Some?
      && CertificateNeedsRenewal(certificate.domains, secret.value, today) == Ok(today > certificate.expiryDate - 2)
  {
    var annotations := CertificateAnnotations(certificate);
    var after := if Inserted(store, namespace, name, certificate).Ok?
                 then Inserted(store, namespace, name, certificate).value
                 else Updated(store, namespace, name, certificate).value;
    var key := SecretKey(namespace, name);
    assert key in after;
    var secret := Lookup(after, namespace, name).value;
    assert secret.annotations == after[key].annotations;
    assert forall a :: a in annotations ==> a in secret.annotations && secret.annotations[a] == annotations[a];
    CarriesCertificateRenewal(secret, certificate, today);
  }

  // ------------------------------------------------------------ the store

  /** The cluster's secrets, reached through the API. */
  class SecretStore {
    var secrets: Store

    constructor (initial: Store)
      ensures secrets == initial
    {
      secrets := initial;
    }

    /** Lists the secrets of `namespace`, in an order the API chooses. */
    method List(namespace: string) returns (items: seq<Secret>)
      ensures ListingOf(secrets, namespace, items)
    {
      items := [];
      var pending := secrets.Keys;
      while pending != {}
        invariant pending <= secrets.Keys
        invariant forall i :: 0 <= i < |items| ==>
          items[i].namespace == namespace && KeyOf(items[i]) in secrets && secrets[KeyOf(items[i])] == BodyOf(items[i])
        invariant forall k :: k in secrets && k !in pending && k.namespace == namespace ==>
          exists i :: 0 <= i < |items| && KeyOf(items[i]) == k
        decreases pending
      {
        var k :| k in pending;
        ghost var listed := items;
        if k.namespace == namespace {
          items := items + [Secret(k.namespace, k.name, secrets[k].annotations, secrets[k].data)];
        }
        forall k' | k' in secrets && k' !in pending - {k} && k'.namespace == namespace
          ensures exists i :: 0 <= i < |items| && KeyOf(items[i]) == k'
        {
          if k' == k {
            assert KeyOf(items[|items| - 1]) == k';
          } else {
            var i :| 0 <= i < |listed| && KeyOf(listed[i]) == k';
            assert items[i] == listed[i];
          }
        }
        pending := pending - {k};
      }
    }

    /** `getSecret`: the last secret called `name` in the listing of `namespace`. */
    method GetSecret(namespace: string, name: string) returns (r: Option<Secret>)
      ensures r == Lookup(secrets, namespace, name)
    {
      var items := List(namespace);
      r := LastNamed(items, name);
      LastNamedInListing(secrets, namespace, items, name);
    }

    /** `insertCertificate`. */
    method InsertCertificate(namespace: string, name: string, certificate: CertificateResponse) returns (r: Outcome<()>)
      modifies this
      ensures r.Err? <==> Inserted(old(secrets), namespace, name, certificate).Err?
      ensures r.Err? ==> r.error == SecretExists && secrets == old(secrets)
      ensures r.Ok? ==> secrets == Inserted(old(secrets), namespace, name, certificate).value
    {
      var result := Inserted(secrets, namespace, name, certificate);
      if result.Err? {
        return Err(result.error);
      }
      secrets := result.value;
      r := Ok(());
    }

    /** `updateCertificate`. */
    method UpdateCertificate(namespace: string, name: string, certificate: CertificateResponse) returns (r: Outcome<()>)
      modifies this
      ensures r.Err? <==> Updated(old(secrets), namespace, name, certificate).Err?
      ensures r.Err? ==> r.error == SecretMissing && secrets == old(secrets)
      ensures r.Ok? ==> secrets == Updated(old(secrets), namespace, name, certificate).value
    {
      var result := Updated(secrets, namespace, name, certificate);
      if result.Err? {
        return Err(result.error);
      }
      secrets := result.value;
      r := Ok(());
    }
  }
}
