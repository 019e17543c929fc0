# kubernetes-letsencrypt, modelled in Dafny

A model of the core of the kubernetes-letsencrypt controller. The controller watches the
namespaces of a Kubernetes cluster and runs a reconciliation loop for each one every 45
seconds. A service can carry an `acme/certificate` annotation holding one domain or a JSON
array of domains, and optionally `acme/secretName`. For such a service the loop checks the
secret that should hold its certificate:

- if the secret is absent, the controller requests a new certificate from Let's Encrypt
  (ACME DNS-01) and stores it in a new secret;
- if the certificate is about to expire or its domains changed, it renews the certificate
  and updates the secret in place.

The DNS-01 challenge is answered by writing a TXT record `_acme-challenge.<domain>` into the
most specific matching zone, on AWS Route 53 or Google Cloud DNS.

Files (one Dafny module each):

| file | module | models |
|---|---|---|
| `wrappers.dfy` | `Wrappers` | `Option` and `Result` |
| `model.dfy` | `Model` | annotation keys, `CertificateRequest`, `CertificateResponse`, the secret file names, and the failures the source reports by exception (`Error`) |
| `strings.dfy` | `Strings` | `startsWith`, `endsWith`, `contains` and `replace(char, char)` |
| `json.dfy` | `Json` | the JSON string arrays written and read with Gson |
| `dates.dfy` | `Dates` | the day written into the expiry annotation and parsed back |
| `encoding.dfy` | `Encoding` | UTF-8 and Base64, with a decoder |
| `dns_responder.dfy` | `DnsResponder` | `determineFqdnRecord`, and the polling loop both responders share |
| `route53.dfy` | `Route53` | `Route53Responder` |
| `cloud_dns.dfy` | `CloudDns` | `CloudDnsResponder` |
| `secret_manager.dfy` | `SecretManager` | `SecretManager`; the cluster's secrets are a `SecretStore` object |
| `service_manager.dfy` | `ServiceManager` | `ServiceManager` |
| `namespace_manager.dfy` | `NamespaceManager` | `NamespaceManager` and its `ReconciliationLoop` |
| `certificate_request_handler.dfy` | `CertificateRequestHandler` | `CertificateRequestHandler` |

The model takes the source's own form.

- Objects whose state the source changes are classes with `modifies` clauses:
  - `SecretStore` holds the secrets of the cluster;
  - `ServiceManager` holds the set of services in progress;
  - `NamespaceManager` holds the namespace → scheduler registry;
  - `ReconciliationLoop`.
  Each method is proved against a function of the old state: `Inserted`, `Updated`,
  `Written`, `ReconcileEffect`, `ReconcileAll` and `NextFlags`.
- The source's loops are methods with `while` or `for` loops and their invariants:
  - the polling loops of both responders and of `completeChallenge`;
  - the zone listing of Cloud DNS;
  - the record-set scan of an ADD;
  - the per-service loop of a tick;
  - the per-domain loop of `requestCertificate`;
  - the writer loop of `base64EncodeWriter`.
- Pure decisions are functions:
  - zone selection;
  - record formatting;
  - secret naming;
  - the renewal checks;
  - `prepareCertificateRequest`.

Calls into code outside the model are inputs:

- The Kubernetes API is the `SecretStore` and the listed services.
- Route 53 and Cloud DNS are the listed zones plus a finite sequence of change statuses:
  the status returned on submission, then the status of each poll.
- ACME is modelled per domain by a `DomainOracle`: the authorization, the result of adding
  the record, the answer to each update of the challenge, and the result of removing the
  record. The authorization and each update answer are `None` where the ACME call throws.
  The oracle of each requested domain hands out an authorization for that very domain.
- The signing run is an `Issuer` function from domains to a certificate or an error. The PEM
  texts of a signed and downloaded certificate are a `SignedCertificate`. In
  `RequestCertificate` that certificate is `None` when requesting or downloading it throws.
- Today's date is a `Day` parameter.

Where the code and the design notes disagree, the model follows the code:

- **Expiry.** A certificate is expiring when today is strictly after its expiry day minus
  two days (`SecretManager.kt:99`). This is not "within two days, inclusive".
  `CertificateIsExpiring` states the code's rule.
- **Domain change.** The domains have changed when the two lists differ in size or a
  requested domain is missing from the stored list (`SecretManager.kt:117`). This is not set
  equality. `UnchangedIsNotSetEquality` shows an input on which the two differ.
  `UnchangedDistinctMeansSameSet` shows that they agree when the request repeats no domain.
- **Deleted namespaces.** A deleted namespace keeps its entry in the registry with its
  scheduler shut down, so adding the namespace again does not restart its loop
  (`NamespaceManager.kt:49-56`, `DeletedThenAddedStaysShutDown`).
- **Cloud DNS zone matching.** Cloud DNS keeps a zone when its DNS name occurs anywhere in
  the record (`contains`), while Route 53 requires a suffix. Cloud DNS picks the first zone
  of maximal length, while Route 53 prefers a public zone among zones of the same name.
- **No matching zone.** Kotlin's `reduce` on an empty list throws; the model returns the
  `NoMatchingZone` error, which is what the caller reports next.
- **Challenge time-out.** The comment on `completeChallenge` (`CertificateRequestHandler.kt:137-141`)
  says a challenge not completed within 10 minutes fails with an exception. The code has no
  time-out: it updates for as long as the status is PENDING (`:146-149`). `CompleteChallenge`
  follows the code, and its requires `Settles` leaves out the run that never ends.

Exceptions become `Err` values of `Model.Error`, each raised at the point where the source
throws. Every exception of the ACME client (`AcmeException`, and the `IOException` of the
downloads) is the single error `AcmeFailure`, as `requestCertificate` turns each of them into
a `LetsencryptException` (`CertificateRequestHandler.kt:52-58`, `:80-83`).

## Model

| member | source | states |
|---|---|---|
| DnsResponder.DetermineFqdnRecord | src/main/kotlin/in/tazj/k8s/letsencrypt/acme/DnsResponder.kt:22-28 | the result ends with `.`; a name already ending with `.` is returned unchanged; otherwise the result is one longer and starts with the name |
| DnsResponder.FqdnIdempotent | src/main/kotlin/in/tazj/k8s/letsencrypt/acme/DnsResponder.kt:22-28 | normalising twice gives the same name as normalising once |
| DnsResponder.FqdnAppendsOnlyDot | src/main/kotlin/in/tazj/k8s/letsencrypt/acme/DnsResponder.kt:25-27 | when normalising changes a name, the result is exactly the name followed by `.` |
| DnsResponder.PollWhilePending | src/main/kotlin/in/tazj/k8s/letsencrypt/acme/CloudDnsResponder.kt:36-42 | polling stops at the first status that is not PENDING, and every earlier status was PENDING; the same loop closes `updateRoute53Record` (Route53Responder.kt:54-57) |
| Strings.ReplaceChar | src/main/kotlin/in/tazj/k8s/letsencrypt/kubernetes/ServiceManager.kt:119 | same length; each occurrence of the replaced character becomes the new one and every other character stays |
| Route53.SuffixZones | src/main/kotlin/in/tazj/k8s/letsencrypt/acme/Route53Responder.kt:70-71 | keeps exactly the listed zones whose name is a suffix of the FQDN, and never more zones than were listed |
| Route53.ReduceIsMember | src/main/kotlin/in/tazj/k8s/letsencrypt/acme/Route53Responder.kt:72-89 | the `reduce` returns one of the zones it was given |
| Route53.ReduceIsLongest | src/main/kotlin/in/tazj/k8s/letsencrypt/acme/Route53Responder.kt:72-74 | no zone given to the `reduce` has a longer name than the one it returns |
| Route53.ReducePrefersPublic | src/main/kotlin/in/tazj/k8s/letsencrypt/acme/Route53Responder.kt:75-85 | if a public zone carries the returned name, the returned zone is public |
| Route53.FindHostedZoneMostSpecific | src/main/kotlin/in/tazj/k8s/letsencrypt/acme/Route53Responder.kt:67-93 | `None` exactly when no zone name is a suffix of the FQDN; otherwise the zone is listed, its name is a suffix of the FQDN, and no matching zone has a longer name |
| Route53.FindHostedZonePrefersPublic | src/main/kotlin/in/tazj/k8s/letsencrypt/acme/Route53Responder.kt:75-85 | when a public matching zone has the selected name's length, the selected zone is public |
| Route53.FormatChallengeValue | src/main/kotlin/in/tazj/k8s/letsencrypt/acme/Route53Responder.kt:96-102 | the value always ends with a quote; a value already ending with a quote is kept; any other value is wrapped in quotes |
| Route53.FormatChallengeValueIdempotent | src/main/kotlin/in/tazj/k8s/letsencrypt/acme/Route53Responder.kt:96-102 | quoting an already quoted value changes nothing |
| Route53.ChallengeChanges | src/main/kotlin/in/tazj/k8s/letsencrypt/acme/Route53Responder.kt:39-44 | the batch holds exactly one change, with the given action, on the TXT set `recordName` with TTL 60 and the quoted digest as its only value |
| Route53.UpdateRoute53Record | src/main/kotlin/in/tazj/k8s/letsencrypt/acme/Route53Responder.kt:28-60 | no matching zone: the `NoMatchingZone` error and nothing submitted; otherwise the selected zone is returned, the batch is submitted to that zone's id, and the result comes only after a status other than PENDING was observed, with every earlier status PENDING |
| Route53.AddChallengeRecord | src/main/kotlin/in/tazj/k8s/letsencrypt/acme/Route53Responder.kt:20-22 | fails exactly when no zone matches; otherwise the UPSERT batch goes to the id of the zone `FindHostedZone` selects, the result is that zone's name, and it comes only after the change left PENDING |
| Route53.RemoveChallengeRecord | src/main/kotlin/in/tazj/k8s/letsencrypt/acme/Route53Responder.kt:24-26 | fails exactly when no zone matches; otherwise the DELETE batch for the same record and digest goes to the id of the zone `FindHostedZone` selects, the one the addition used, and the call returns only after the change left PENDING |
| Route53.CorrectHostedZoneIsFound | src/test/kotlin/in/tazj/k8s/letsencrypt/acme/Route53ResponderTest.kt:15-35 | of `tazj.in.`, `test.tazj.in.` and `other.tazj.in.`, the record `_acme-challenge.some.test.tazj.in` selects `test.tazj.in.` |
| Route53.CorrectPublicHostedZoneIsFound | src/test/kotlin/in/tazj/k8s/letsencrypt/acme/Route53ResponderTest.kt:38-59 | of a private and a public `test.tazj.in.` zone, the public one is selected |
| CloudDns.ContainingZonesMembers | src/main/kotlin/in/tazj/k8s/letsencrypt/acme/CloudDnsResponder.kt:108-119 | a zone is kept exactly when it is listed and its DNS name occurs in the FQDN |
| CloudDns.ContainingZonesSplit | src/main/kotlin/in/tazj/k8s/letsencrypt/acme/CloudDnsResponder.kt:112-116 | filtering keeps the listing order: filtering two concatenated listings concatenates the filtered parts |
| CloudDns.FetchMatchingZones | src/main/kotlin/in/tazj/k8s/letsencrypt/acme/CloudDnsResponder.kt:108-119 | the loop builds exactly the zones whose DNS name occurs (`contains`) in the FQDN of the record, in listing order |
| CloudDns.LongestIsMaximal | src/main/kotlin/in/tazj/k8s/letsencrypt/acme/CloudDnsResponder.kt:96-101 | no zone given to the `reduce` has a longer DNS name than the one it returns |
| CloudDns.LongestFirstIndex | src/main/kotlin/in/tazj/k8s/letsencrypt/acme/CloudDnsResponder.kt:96-101 | the returned zone sits at a position before which every zone is strictly shorter |
| CloudDns.LongestIsFirstMaximal | src/main/kotlin/in/tazj/k8s/letsencrypt/acme/CloudDnsResponder.kt:94-103 | the `reduce` returns the first zone of maximal DNS-name length |
| CloudDns.MatchingZoneIsMostSpecific | src/main/kotlin/in/tazj/k8s/letsencrypt/acme/CloudDnsResponder.kt:94-119 | a zone is selected exactly when some listed DNS name occurs in the FQDN, and then it is listed, its DNS name occurs in the FQDN, no matching zone has a longer DNS name, and it is the first matching zone of that length |
| CloudDns.FindMatchingZone | src/main/kotlin/in/tazj/k8s/letsencrypt/acme/CloudDnsResponder.kt:94-103 | the loop result is `MatchingZone`: `None` exactly when no DNS name occurs in the FQDN, otherwise the most specific zone (`MostSpecific`) |
| CloudDns.OtherZoneDoesNotOccur | src/test/kotlin/in/tazj/k8s/letsencrypt/acme/CloudDnsResponderTest.kt:18-22 | `other.tazj.in.` does not occur in `_acme-challenge.some.test.tazj.in.` |
| CloudDns.ScenarioMatching | src/test/kotlin/in/tazj/k8s/letsencrypt/acme/CloudDnsResponderTest.kt:18-30 | for the test's three zones, exactly `tazj.in.` and `test.tazj.in.` match, in that order |
| CloudDns.CorrectZoneIsFound | src/test/kotlin/in/tazj/k8s/letsencrypt/acme/CloudDnsResponderTest.kt:15-35 | for the test's zones and record, the zone called `correct` is selected |
| CloudDns.ChallengeRecordSet | src/main/kotlin/in/tazj/k8s/letsencrypt/acme/CloudDnsResponder.kt:63-69 | a TXT set named by the FQDN of the record (`DetermineFqdnRecord`), with a 60-second TTL and the digest, unquoted, as its only value |
| CloudDns.SameNameAndType | src/main/kotlin/in/tazj/k8s/letsencrypt/acme/CloudDnsResponder.kt:75-81 | keeps exactly the existing record sets with the new set's name and type |
| CloudDns.ExistingRecordSets | src/main/kotlin/in/tazj/k8s/letsencrypt/acme/CloudDnsResponder.kt:75-81 | the scan yields exactly the existing record sets with the challenge set's name and type, in listing order |
| CloudDns.UpdateCloudDnsRecord | src/main/kotlin/in/tazj/k8s/letsencrypt/acme/CloudDnsResponder.kt:52-89 | `NoMatchingZone` exactly when no zone matches; otherwise the change goes to the selected most specific zone; an ADD deletes every record set of that zone with the challenge set's name and type and adds the challenge set; a REMOVE only deletes the challenge set |
| CloudDns.AddChallengeRecord | src/main/kotlin/in/tazj/k8s/letsencrypt/acme/CloudDnsResponder.kt:25-30 | fails exactly when no zone matches; otherwise it adds the challenge set to the selected most specific zone, returns only after the change left PENDING, and yields that zone's DNS name |
| CloudDns.RemoveChallengeRecord | src/main/kotlin/in/tazj/k8s/letsencrypt/acme/CloudDnsResponder.kt:32-34 | fails exactly when no zone matches; otherwise a single deletion of the challenge set goes to the selected most specific zone, the one the addition used, without waiting |
| Dates.ParseNatToString | src/main/kotlin/in/tazj/k8s/letsencrypt/kubernetes/SecretManager.kt:40 | a written day count reads back as itself |
| Dates.DateRoundTrip | src/main/kotlin/in/tazj/k8s/letsencrypt/kubernetes/SecretManager.kt:107-110 | the expiry day written into an annotation parses back to the same day |
| Json.RoundTrip | src/main/kotlin/in/tazj/k8s/letsencrypt/kubernetes/SecretManager.kt:38 | a list of strings written as a JSON array reads back as the same list |
| Encoding.Utf8Concat | src/main/kotlin/in/tazj/k8s/letsencrypt/acme/CertificateRequestHandler.kt:134 | the UTF-8 bytes of a concatenation are the concatenated bytes |
| Encoding.Base64RoundTrip | src/main/kotlin/in/tazj/k8s/letsencrypt/acme/CertificateRequestHandler.kt:134 | Base64 decoding gives back the encoded bytes |
| SecretManager.Lookup | src/main/kotlin/in/tazj/k8s/letsencrypt/kubernetes/SecretManager.kt:22-28 | `None` exactly when no secret is stored under the namespace and name; otherwise the stored secret under that key |
| SecretManager.LastNamed | src/main/kotlin/in/tazj/k8s/letsencrypt/kubernetes/SecretManager.kt:25-27 | `None` exactly when no listed secret has the name; otherwise a listed secret with that name after which no listed secret has it |
| SecretManager.LastNamedInListing | src/main/kotlin/in/tazj/k8s/letsencrypt/kubernetes/SecretManager.kt:22-28 | in any listing of a namespace, the last secret with the name is the one stored under it |
| SecretManager.SecretStore.List | src/main/kotlin/in/tazj/k8s/letsencrypt/kubernetes/SecretManager.kt:24-25 | the listing holds only stored secrets of the namespace, as stored, and every stored secret of the namespace |
| SecretManager.SecretStore.GetSecret | src/main/kotlin/in/tazj/k8s/letsencrypt/kubernetes/SecretManager.kt:22-28 | the secret stored under the namespace and name, if any |
| SecretManager.CertificateAnnotations | src/main/kotlin/in/tazj/k8s/letsencrypt/kubernetes/SecretManager.kt:39-43 | exactly the expiry, CA and domain annotations, the CA one holding the certificate's CA |
| SecretManager.AnnotationsReadBack | src/main/kotlin/in/tazj/k8s/letsencrypt/kubernetes/SecretManager.kt:34-43 | the expiry annotation parses back to the certificate's expiry day and the domain annotation to its domains |
| SecretManager.Inserted | src/main/kotlin/in/tazj/k8s/letsencrypt/kubernetes/SecretManager.kt:33-55 | fails with `SecretExists` exactly when the key is taken; otherwise adds exactly that key, leaves every other secret as it was, and stores exactly the three certificate annotations and the certificate files |
| SecretManager.Updated | src/main/kotlin/in/tazj/k8s/letsencrypt/kubernetes/SecretManager.kt:57-78 | fails with `SecretMissing` exactly when the key is absent; otherwise keeps the key set and every other secret, replaces the data with the certificate files, sets the three certificate annotations and keeps every other annotation |
| SecretManager.SecretStore.InsertCertificate | src/main/kotlin/in/tazj/k8s/letsencrypt/kubernetes/SecretManager.kt:33-55 | the store becomes `Inserted`'s result, or is left unchanged with the `SecretExists` error |
| SecretManager.SecretStore.UpdateCertificate | src/main/kotlin/in/tazj/k8s/letsencrypt/kubernetes/SecretManager.kt:57-78 | the store becomes `Updated`'s result, or is left unchanged with the `SecretMissing` error |
| SecretManager.CertificateIsExpiring | src/main/kotlin/in/tazj/k8s/letsencrypt/kubernetes/SecretManager.kt:95-110 | no expiry annotation: not expiring; an unparsable one: `MalformedDate`; otherwise expiring exactly when today is strictly after the expiry day minus two |
| SecretManager.HaveDomainsChanged | src/main/kotlin/in/tazj/k8s/letsencrypt/kubernetes/SecretManager.kt:112-123 | no domain annotation: unchanged; one that is not a JSON string array: `MalformedDomainList`; otherwise changed exactly when the sizes differ or a requested domain is missing from the stored list |
| SecretManager.CertificateNeedsRenewal | src/main/kotlin/in/tazj/k8s/letsencrypt/kubernetes/SecretManager.kt:88-93 | the disjunction of the expiry check and the domain check; an error of either (the expiry check first) is the outcome |
| SecretManager.ExpiredYesterdayNeedsRenewal | src/test/kotlin/in/tazj/k8s/letsencrypt/kubernetes/ServiceManagerTest.kt:67-78 | a secret whose expiry annotation is yesterday needs renewal |
| SecretManager.ExpiringStaysExpiring | src/main/kotlin/in/tazj/k8s/letsencrypt/kubernetes/SecretManager.kt:99 | once expiring, a certificate is expiring on every later day |
| SecretManager.MultisetContainsAll | src/main/kotlin/in/tazj/k8s/letsencrypt/kubernetes/SecretManager.kt:117 | two lists holding the same domains with the same counts have equal sizes and contain each other's domains |
| SecretManager.ReorderingIsNoChange | src/main/kotlin/in/tazj/k8s/letsencrypt/kubernetes/SecretManager.kt:112-118 | a reordering of the stored domains is not a change |
| SecretManager.ReplacedDomainIsChange | src/test/kotlin/in/tazj/k8s/letsencrypt/kubernetes/ServiceManagerTest.kt:171-185 | a stored two-domain list with one domain replaced (`[test1, test3]` against `[test1, test2]`) is a change |
| SecretManager.UnchangedDistinctMeansSameSet | src/main/kotlin/in/tazj/k8s/letsencrypt/kubernetes/SecretManager.kt:117 | for a request without repeated domains, unchanged means the stored and requested domains are the same set |
| SecretManager.UnchangedIsNotSetEquality | src/main/kotlin/in/tazj/k8s/letsencrypt/kubernetes/SecretManager.kt:117 | stored `[a, b]` against requested `[a, a]` counts as unchanged, so the rule is not set equality |
| SecretManager.CarriesCertificateRenewal | src/main/kotlin/in/tazj/k8s/letsencrypt/kubernetes/SecretManager.kt:88-123 | a secret carrying a certificate's annotations needs renewal for that certificate's domains exactly when today is after its expiry day minus two |
| SecretManager.WrittenCertificateRenewal | src/main/kotlin/in/tazj/k8s/letsencrypt/kubernetes/SecretManager.kt:33-78 | after either write the secret exists and needs renewal for the certificate's domains exactly when the certificate is due to expire |
| ServiceManager.GetCertificateDomains | src/main/kotlin/in/tazj/k8s/letsencrypt/kubernetes/ServiceManager.kt:137-152 | an annotation starting with `[` gives its JSON list, with `MalformedDomainList` or `NoDomainsSpecified` for a bad or empty list; any other annotation gives the one-domain list; a result is never empty |
| ServiceManager.DomainListRoundTrip | src/test/kotlin/in/tazj/k8s/letsencrypt/kubernetes/ServiceManagerTest.kt:156-169 | a non-empty domain list written as JSON is read back as that list |
| ServiceManager.EmptyDomainListFails | src/main/kotlin/in/tazj/k8s/letsencrypt/kubernetes/ServiceManager.kt:142-146 | the empty JSON list fails with `NoDomainsSpecified` |
| ServiceManager.DefaultSecretName | src/main/kotlin/in/tazj/k8s/letsencrypt/kubernetes/ServiceManager.kt:118-120 | every `.` of the domain becomes `-` and `-tls` is appended; no `.` remains |
| ServiceManager.DefaultSecretNameExample | src/test/kotlin/in/tazj/k8s/letsencrypt/kubernetes/ServiceManagerTest.kt:106-117 | `test.k8s.io` gives `test-k8s-io-tls` |
| ServiceManager.GetSecretName | src/main/kotlin/in/tazj/k8s/letsencrypt/kubernetes/ServiceManager.kt:107-121 | an explicit name wins; without it one domain gives the default name, two or more fail with `SecretNameRequired`, none fails with `NoDomain` |
| ServiceManager.RequestedSecret | src/main/kotlin/in/tazj/k8s/letsencrypt/kubernetes/ServiceManager.kt:77-81 | `MissingRequestAnnotation` for a service that is not a request; otherwise Ok exactly when the domains parse and a secret name follows from them, and the failure of either step, domains first, is the outcome; the result is the parsed domains and that secret name |
| ServiceManager.Decide | src/main/kotlin/in/tazj/k8s/letsencrypt/kubernetes/ServiceManager.kt:83-99 | no secret: a new-certificate request; renewal due: a renewal request; not due: no request; a failed renewal check is the outcome |
| ServiceManager.PreparedRequest | src/main/kotlin/in/tazj/k8s/letsencrypt/kubernetes/ServiceManager.kt:76-100 | a failure to read the request is the outcome; no secret under the requested name gives a new-certificate request for the parsed domains; an existing secret gives a renewal request when it needs renewal, no request when it does not, and the renewal check's failure otherwise |
| ServiceManager.SingleDomainRequest | src/test/kotlin/in/tazj/k8s/letsencrypt/kubernetes/ServiceManagerTest.kt:106-117 | a one-domain service without a secret asks for a new certificate under the default secret name |
| ServiceManager.CustomSecretNameRequest | src/test/kotlin/in/tazj/k8s/letsencrypt/kubernetes/ServiceManagerTest.kt:140-153 | an explicit secret name is used for the new request |
| ServiceManager.ServiceManager.PrepareCertificateRequest | src/main/kotlin/in/tazj/k8s/letsencrypt/kubernetes/ServiceManager.kt:76-100 | agrees with `PreparedRequest` on the store's secrets, looking the secret up through the store |
| ServiceManager.Written | src/main/kotlin/in/tazj/k8s/letsencrypt/kubernetes/ServiceManager.kt:59-67 | a renewal is an update and any other request an insert, under the request's secret name; no other secret changes |
| ServiceManager.ServiceManager.HandleCertificateRequest | src/main/kotlin/in/tazj/k8s/letsencrypt/kubernetes/ServiceManager.kt:59-67 | a failed signing leaves the store as it was; otherwise the store becomes the write `Written` describes, or stays as it was with its error |
| ServiceManager.ReconcileTouchesOnlyItsSecret | src/main/kotlin/in/tazj/k8s/letsencrypt/kubernetes/ServiceManager.kt:36-51 | reconciling a service changes no secret of another namespace |
| ServiceManager.ReconcileIsIdempotent | src/main/kotlin/in/tazj/k8s/letsencrypt/kubernetes/ServiceManager.kt:76-100 | after a request is carried out with a certificate for its domains that is not yet due, preparing the same service again asks for nothing |
| ServiceManager.ServiceManager.ReconcileService | src/main/kotlin/in/tazj/k8s/letsencrypt/kubernetes/ServiceManager.kt:36-51 | work starts exactly for a certificate request whose name is not in progress; afterwards the in-progress set is as before; the store becomes `ReconcileEffect` (prepare, sign, write) when work started and is untouched otherwise |
| NamespaceManager.FlagsOf | src/main/kotlin/in/tazj/k8s/letsencrypt/kubernetes/NamespaceManager.kt:26 | the registered names and, for each, whether its scheduler is shut down |
| NamespaceManager.NextFlags | src/main/kotlin/in/tazj/k8s/letsencrypt/kubernetes/NamespaceManager.kt:28-56 | ADDED registers a running entry for a new name and leaves a known one; DELETED shuts a known entry down and keeps it, and ignores an unknown one; other actions and other names are untouched |
| NamespaceManager.ShutDownIsPermanent | src/main/kotlin/in/tazj/k8s/letsencrypt/kubernetes/NamespaceManager.kt:36-56 | a shut-down entry stays registered and shut down whatever events follow |
| NamespaceManager.DeletedThenAddedStaysShutDown | src/main/kotlin/in/tazj/k8s/letsencrypt/kubernetes/NamespaceManager.kt:49-56 | after a registered name is deleted, no later event restarts it |
| NamespaceManager.OtherNamesUntouched | src/main/kotlin/in/tazj/k8s/letsencrypt/kubernetes/NamespaceManager.kt:36-56 | events for other names never touch an entry |
| NamespaceManager.RegistryHistory | src/main/kotlin/in/tazj/k8s/letsencrypt/kubernetes/NamespaceManager.kt:28-56 | from an empty registry a name is registered exactly when it was ADDED, and running exactly when no DELETED for it followed an ADDED |
| NamespaceManager.NamespaceManager.EventReceived | src/main/kotlin/in/tazj/k8s/letsencrypt/kubernetes/NamespaceManager.kt:28-34 | the registry changes as `NextFlags` says, other entries stay, and an ADDED for a new name gets a fresh loop over a new service manager for that namespace, run every 45 seconds from the start |
| NamespaceManager.NamespaceManager.HandleAddedNamespace | src/main/kotlin/in/tazj/k8s/letsencrypt/kubernetes/NamespaceManager.kt:36-47 | a known name changes nothing; a new name gets exactly one new running entry with a fresh loop, and other entries stay |
| NamespaceManager.NamespaceManager.HandleDeletedNamespace | src/main/kotlin/in/tazj/k8s/letsencrypt/kubernetes/NamespaceManager.kt:49-56 | a known entry is shut down and kept; an unknown name changes nothing |
| NamespaceManager.StartedFlags | src/main/kotlin/in/tazj/k8s/letsencrypt/kubernetes/ServiceManager.kt:40 | one flag per listed service: whether it is a certificate request whose name is not in progress |
| NamespaceManager.ReconcileAllStep | src/main/kotlin/in/tazj/k8s/letsencrypt/kubernetes/NamespaceManager.kt:62-63 | one more listed service extends a tick by that service's reconciliation |
| NamespaceManager.ReconcileAllStaysInNamespace | src/main/kotlin/in/tazj/k8s/letsencrypt/kubernetes/NamespaceManager.kt:58-65 | a tick changes no secret outside the loop's namespace |
| NamespaceManager.ReconciliationLoop.Run | src/main/kotlin/in/tazj/k8s/letsencrypt/kubernetes/NamespaceManager.kt:58-65 | every listed service is reconciled in list order: the store becomes the in-order fold of the reconciliations, and the flags say which services started work |
| CertificateRequestHandler.ChallengeRecordName | src/main/kotlin/in/tazj/k8s/letsencrypt/acme/CertificateRequestHandler.kt:175 | `_acme-challenge.` followed by the domain |
| CertificateRequestHandler.ChallengeRecordNameInjective | src/main/kotlin/in/tazj/k8s/letsencrypt/acme/CertificateRequestHandler.kt:175 | different domains get different record names |
| CertificateRequestHandler.PrepareDnsChallenge | src/main/kotlin/in/tazj/k8s/letsencrypt/acme/CertificateRequestHandler.kt:167-186 | no DNS-01 challenge: `NoDnsChallenge` before any DNS call; otherwise exactly one AddRecord of the challenge name and digest, whose failure is the outcome; on success the cleanup removes that same name and digest |
| CertificateRequestHandler.FirstSettledAt | src/main/kotlin/in/tazj/k8s/letsencrypt/acme/CertificateRequestHandler.kt:146-149 | the first status that is not PENDING is the one the loop stops at |
| CertificateRequestHandler.CompleteChallenge | src/main/kotlin/in/tazj/k8s/letsencrypt/acme/CertificateRequestHandler.kt:142-157 | at least one update; updates continue only while the answer is PENDING; succeeds exactly when the first answer other than PENDING is a status other than INVALID; a thrown `trigger`/`update` gives `AcmeFailure`, an INVALID status `ChallengeInvalid` |
| CertificateRequestHandler.AuthorizeDomain | src/main/kotlin/in/tazj/k8s/letsencrypt/acme/CertificateRequestHandler.kt:66-85 | succeeds exactly as `AuthorizationSucceeds` says; a thrown `authorizeDomain` gives `AcmeFailure` with no DNS call; a VALID authorization makes no DNS call; a missing DNS-01 challenge gives `NoDnsChallenge` and a failed addition its own error; otherwise the record of the authorization's own domain is added first and is removed, with the same name and digest, exactly when the addition succeeded and the challenge passed |
| CertificateRequestHandler.ConcatAppend | src/main/kotlin/in/tazj/k8s/letsencrypt/acme/CertificateRequestHandler.kt:130-132 | each further writer appends its text to what came before |
| CertificateRequestHandler.ConcatSingle | src/main/kotlin/in/tazj/k8s/letsencrypt/acme/CertificateRequestHandler.kt:127-135 | a single writer contributes exactly its own text, as each `base64EncodeWriter` call of `generateSignCertificate` passes one writer |
| CertificateRequestHandler.Base64EncodeWriter | src/main/kotlin/in/tazj/k8s/letsencrypt/acme/CertificateRequestHandler.kt:127-135 | the Base64 of the UTF-8 bytes of the writers' in-order concatenation, which decodes back to those bytes |
| CertificateRequestHandler.CertificateFiles | src/main/kotlin/in/tazj/k8s/letsencrypt/acme/CertificateRequestHandler.kt:116-120 | fails with `DuplicateFileName` exactly when two configured names coincide; otherwise exactly the four names, chain and fullchain equal, each decoding to its PEM text |
| CertificateRequestHandler.DefaultFilesAreBuilt | src/main/kotlin/in/tazj/k8s/letsencrypt/util/EnvironmentalConfiguration.kt:26-33 | with the default names `certificate.pem`, `chain.pem`, `key.pem` and `fullchain.pem` the file map is always built, under exactly those four names |
| CertificateRequestHandler.GenerateSignCertificate | src/main/kotlin/in/tazj/k8s/letsencrypt/acme/CertificateRequestHandler.kt:94-124 | succeeds exactly when the certificate was signed and downloaded and the file names are distinct; a thrown request or download gives `AcmeFailure`, a name collision `DuplicateFileName`; otherwise the response carries the requested domains, the certificate file map, the certificate's expiry day and the ACME server |
| CertificateRequestHandler.RequestCertificate | src/main/kotlin/in/tazj/k8s/letsencrypt/acme/CertificateRequestHandler.kt:36-60 | with `oracles[i]` answering for `domains[i]`: succeeds exactly when every authorization succeeds, the certificate was signed and downloaded, and the file names are distinct; a failed signing after successful authorizations gives `AcmeFailure`; on success every requested domain was VALID or had its challenge record published and then removed, and the response echoes the domains and the server; every published record belongs to a requested domain, and every removal directly follows the addition of the same record |

## Left out

- The Java source tree under `src/main/java` is an older copy of the same controller and is not part of this model.
- `DnsRecordObserver`, which polls the zone's name servers until the TXT record is visible, is not part of this model: `PrepareDnsChallenge` goes straight from adding the record to the cleanup closure.
- `KeyPairManager`, the account key pair and `getRegistration` are not part of this model. The registration is implicit in each `DomainOracle` and in the `Issuer`, so a failure to register is not modelled.
- `Main`, `EnvironmentalConfiguration` and the platform detection are not part of this model. `Model.DefaultSecretFilenames` keeps the default file names, and the configured names are a parameter.
- The subscriber-agreement retry of `requestCertificate` (`agreeToSubscriberLicense` and the recursive call) is not modelled: an `AcmeUnauthorizedException` is the `AcmeFailure` error like any other ACME failure.
- The CSR, key generation and X.509 encoding are not modelled: the PEM texts of the signed certificate are an input (`SignedCertificate`).
- `CertificateRequestHandler.RequestCertificate`: the domains are authorized one after another in list order. The source runs them on a `parallelStream` with a synchronized `getAuthorization`, so interleavings are not modelled.
- `ServiceManager.ServiceManager.ReconcileService`: the reconciliation runs to completion inside the call, with the service's name in the in-progress set while it runs. The source starts a thread, so the model does not capture concurrent reconciliations or the check-then-act race on the in-progress set.
- `NamespaceManager.NamespaceManager.EventReceived`: the scheduler is a value recording the loop, the initial delay, the period and a shut-down flag. Timer ticks are explicit calls of `ReconciliationLoop.Run`.
- `Thread.sleep` in the polling loops and the propagation wait of Cloud DNS are not modelled.
- `DnsResponder.PollWhilePending` and `CertificateRequestHandler.CompleteChallenge` require that some status in the given sequence is not PENDING. A change that stays pending forever makes the source loop forever, and that run is not modelled.
- `Json.FromJson` reads only arrays of strings, with the escapes `\"`, `\\`, `\/`, `\b`, `\f`, `\n`, `\r` and `\t`. Gson's lenient mode, `\u` escapes and HTML-safe output are not modelled.
- `Dates.FormatDate` writes a day as a signed decimal day count, not as an ISO-8601 calendar date. The conversion of the certificate's `notAfter` instant to a local date in the system time zone is not modelled either. What the model keeps is that the written day parses back to itself, and that an unparsable annotation is an error.
- Secrets and services whose metadata has no annotations map are read as having an empty map (secrets) or as not requesting a certificate (services, `IsCertificateRequest`).
- Logging is not modelled.
