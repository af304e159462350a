/**
  The bearer-token gate placed in front of the list, create and delete
  endpoints. The configured token is a parameter; where it comes from
  (an environment variable with a default) is outside the model.
 */
module Auth {
  import opened Wrappers

  const BearerPrefix: string := "Bearer "

  /** Character-by-character prefix test, as `startsWith` performs it. */
  function StartsWith(s: string, prefix: string): (r: bool)
    ensures r <==> |prefix| <= |s| && s[..|prefix|] == prefix
    decreases |prefix|
  {
    if |prefix| == 0 then true
    else if |s| == 0 || s[0] != prefix[0] then false
    else
      var r := StartsWith(s[1..], prefix[1..]);
      assert |prefix| <= |s| ==> s[..|prefix|] == [s[0]] + s[1..][..|prefix| - 1];
      assert prefix == [prefix[0]] + prefix[1..];
      r
  }

  /** The gate: the header must be present and truthy, start with "Bearer ",
      and the text from index 7 on must equal the configured token. It lets
      a request through exactly when the header is "Bearer " + token. */
  function Authenticate(header: Option<string>, token: string): (allowed: bool)
    ensures allowed <==> header == Some(BearerPrefix + token)
  {
    match header
    case None => false
    case Some(h) =>
      if h != "" && StartsWith(h, BearerPrefix) then
        assert h == h[..7] + h[7..];
        h[7..] == token
      else
        false
  }
}
