/** The token issuer and checker the backend calls (`jwt.sign` and
    `jwt.verify`), reduced to what the backend relies on: a token carries a
    tutor id and name, contains no space, and checking a token gives back
    the id it was issued for. Signing keys and expiry are not modelled. */
module Jwt {
  import opened Wrappers
  import Codec

  /** The token issued for a tutor: its id and name as the two claims. */
  function Sign(id: string, name: string): (token: string)
    ensures ' ' !in token
  {
    Codec.Encode([id, name])
  }

  /** The id claim of a well-formed two-claim token, or nothing. Only issued
      tokens verify: an accepted token is the one issued for the id it
      yields, under some name. */
  function Verify(token: string): (id: Option<string>)
    ensures id.Some? ==> exists name :: Sign(id.value, name) == token
  {
    match Codec.Decode(token)
    case Some(claims) =>
      if |claims| == 2 then
        Codec.EncodeDecode(token, claims);
        assert Sign(claims[0], claims[1]) == token by {
          assert claims == [claims[0], claims[1]];
        }
        Some(claims[0])
      else None
    case None => None
  }

  /** A token issued for a tutor verifies as that tutor's id. */
  lemma VerifySign(id: string, name: string)
    ensures Verify(Sign(id, name)) == Some(id)
  {
    Codec.DecodeEncode([id, name]);
  }


  /** The empty string, which the header split yields for `"Bearer "`, is no token. */
  lemma VerifyRejectsEmpty()
    ensures Verify("") == None
  {
  }
}
