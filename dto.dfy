/** The request and response shapes of the authentication endpoints. */
module Dto {
  import opened Results
  import Jwt

  datatype RegisterRequest = RegisterRequest(email: string, password: string, confirmPassword: string)

  datatype AuthenticationRequest = AuthenticationRequest(email: string, password: string)

  /** The uniform result envelope; `token` is null unless a token was issued. */
  datatype AuthenticationResponse = AuthenticationResponse(success: bool, message: string, token: Option<Jwt.Token>)

  /** The two-argument constructor, which leaves the token null. */
  function WithoutToken(success: bool, message: string): AuthenticationResponse
  {
    AuthenticationResponse(success, message, None)
  }
}
