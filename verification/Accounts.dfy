/** Mail accounts as they are stored and as a line describes them. */
module Accounts {
  import opened ImportTokens
  import opened ProviderConfig
  import opened Text
  import opened Utf8
  import opened Wrappers

  /** A stored account; secrets are encrypted envelopes, the configuration is a JSON document. */
  datatype Row = Row(
    email: string,
    provider: Provider,
    authType: AuthType,
    clientId: Option<string>,
    clientSecret: Option<string>,
    refreshToken: Option<string>,
    password: Option<string>,
    loginPassword: Option<string>,
    providerConfig: Bytes)

  datatype Imported = Imported(
    email: string,
    provider: Provider,
    authType: AuthType,
    clientId: Option<string>,
    clientSecret: Option<string>,
    refreshToken: Option<string>,
    password: Option<string>,
    loginPassword: Option<string>,
    config: Config)

  datatype ImportError =
    | InvalidFormat | InvalidEmail | OAuthFieldsRequired | PasswordRequired | HostsRequired
    | UnrecognizedEmailFirst | TooFewLegacyColumns | LegacyFieldsMissing
    | OAuthConfigInvalid | OAuthConfigUndecodable | OAuthConfigRejected(cause: string)

  /** The outcome for one line. */
  datatype Outcome = Account(account: Imported) | Rejected(error: ImportError)

  /** The foreign functions the format calls. */
  datatype Env = Env(
    decrypt: string -> Option<string>,
    marshal: Config -> Bytes,
    unmarshal: Unmarshal,
    validEmail: string -> bool)

  function Optional(value: string): Option<string> {
    if TrimSpace(value) == "" then None else Some(TrimSpace(value))
  }
}
