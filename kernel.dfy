/**
 * The host kernel's collaborators that this core reaches but does not implement.
 * The crypto client's two operations are arbitrary functions chosen by the caller:
 * nothing is assumed about hashing or token verification beyond being functions.
 */
module Kernel {
  import opened Wrappers

  /** The verified principal a bearer token decodes to; only its `username` is consulted. */
  datatype JwtToken = JwtToken(username: string)

  /** The crypto client: `getHash(seed, plaintext)` and `jwtVerifyAccessToken(token)`. */
  datatype CryptoClient = CryptoClient(
    getHash: (string, string) -> string,
    jwtVerifyAccessToken: string -> Option<JwtToken>)
}
