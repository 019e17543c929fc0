/** The plain data of the controller: annotation keys, the certificate request built by the
    reconciliation, the response of a signing run, the configured file names of the four
    certificate files, and the kinds of failure the source reports by exception. */
module Model {
  import opened Wrappers

  /** Annotation keys (model/Constants.kt). */
  const REQUEST_ANNOTATION: string := "acme/certificate"
  const EXPIRY_ANNOTATION: string := "acme/expiryDate"
  const ACME_CA_ANNOTATION: string := "acme/ca"
  const SECRET_NAME_ANNOTATION: string := "acme/secretName"

  /** A calendar day, counted in days from an arbitrary epoch. */
  type Day = int

  /** What a reconciliation decided to do for one service. */
  datatype CertificateRequest = CertificateRequest(secretName: string, domains: seq<string>, renew: bool)

  /** A signed certificate: the requested domains, the file role -> base64 content map, the
      "not after" day of the certificate and the ACME server that signed it. */
  datatype CertificateResponse = CertificateResponse(
    domains: seq<string>,
    certificateFiles: map<string, string>,
    expiryDate: Day,
    ca: string)

  /** The configured names of the four certificate files. */
  datatype SecretFilenames = SecretFilenames(certificate: string, chain: string, key: string, fullchain: string)

  /** The file names used when the environment does not override them. */
  const DefaultSecretFilenames: SecretFilenames :=
    SecretFilenames("certificate.pem", "chain.pem", "key.pem", "fullchain.pem")

  /** Every way an operation of the core can fail. */
  datatype Error =
    | NoMatchingZone            // no DNS zone is a match for the record
    | MissingRequestAnnotation  // `acme/certificate` absent where it is dereferenced
    | MalformedDomainList       // a domain list annotation that is not a JSON string array
    | NoDomainsSpecified        // an empty JSON array of domains
    | SecretNameRequired        // several domains without `acme/secretName`
    | NoDomain                  // the first domain of an empty list
    | MalformedDate             // an expiry annotation that does not parse as a day
    | SecretExists              // creating a secret whose name is taken
    | SecretMissing             // editing a secret that does not exist
    | NoDnsChallenge            // the authorization offers no DNS-01 challenge
    | ChallengeInvalid          // the challenge ended INVALID
    | DuplicateFileName         // two of the four certificate files share a name
    | AcmeFailure               // a call to the ACME server threw; rethrown as `LetsencryptException`

  type Outcome<T> = Result<T, Error>
}
