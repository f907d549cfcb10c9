/** The environment a client talks to: the service's base URL, normalised to end in a
    slash, and the credentials lookup, which is handed that URL. */
module Authentication {
  import opened Wrappers
  import opened Text

  /** The `email`/`password` dict a credentials provider returns. */
  datatype Credentials = Credentials(email: string, password: string)

  /** A credentials provider (`CREDENTIALS.credentials`): given the service URL and the
      optional email and password it produces the credentials. How it does so (prompts,
      environment variables, an enrolment request) is not part of this model. */
  type Provider = (string, Option<string>, Option<string>) -> Credentials

  /** An environment class: its configured `THE_DATAGARDEN_URL` and its provider. */
  datatype Environment = Environment(configuredUrl: string, provider: Provider)

  /** `the_datagarden_url`: the configured URL with one slash appended unless it ends
      in one already. An empty URL fails on `url[-1]`, so it is excluded. */
  function TheDatagardenUrl(url: string): (r: string)
    requires url != []
    ensures EndsWith(r, '/')
    ensures url <= r && |r| <= |url| + 1
    ensures EndsWith(url, '/') ==> r == url
  {
    if url[|url| - 1] != '/' then url + "/" else url
  }

  /** Normalising a normalised URL changes nothing. */
  lemma TheDatagardenUrlIdempotent(url: string)
    requires url != []
    ensures TheDatagardenUrl(TheDatagardenUrl(url)) == TheDatagardenUrl(url)
  {
  }

  /** A URL and the same URL with its slash added normalise alike. */
  lemma TrailingSlashIrrelevant(url: string)
    requires url != [] && !EndsWith(url, '/')
    ensures TheDatagardenUrl(url + "/") == TheDatagardenUrl(url)
  {
  }

  /** `credentials(email, password)`: asks the provider, passing the normalised URL and
      the email and password as given. */
  function EnvironmentCredentials(env: Environment, email: Option<string>, password: Option<string>)
    : (c: Credentials)
    requires env.configuredUrl != []
  {
    env.provider(TheDatagardenUrl(env.configuredUrl), email, password)
  }

  /** The credentials depend on the configured URL only through its normalised form:
      environments sharing a provider and a normalised URL obtain the same credentials
      for the same email and password. */
  lemma CredentialsSeeNormalisedUrl(a: Environment, b: Environment,
                                    email: Option<string>, password: Option<string>)
    requires a.configuredUrl != [] && b.configuredUrl != []
    requires a.provider == b.provider
    requires TheDatagardenUrl(a.configuredUrl) == TheDatagardenUrl(b.configuredUrl)
    ensures EnvironmentCredentials(a, email, password) == EnvironmentCredentials(b, email, password)
  {
  }

  /** So a configured URL with or without its trailing slash makes no difference. */
  lemma CredentialsIgnoreTrailingSlash(a: Environment, b: Environment,
                                       email: Option<string>, password: Option<string>)
    requires a.configuredUrl != [] && !EndsWith(a.configuredUrl, '/')
    requires b == Environment(a.configuredUrl + "/", a.provider)
    ensures EnvironmentCredentials(a, email, password) == EnvironmentCredentials(b, email, password)
  {
    TrailingSlashIrrelevant(a.configuredUrl);
    CredentialsSeeNormalisedUrl(a, b, email, password);
  }
}
