/** The request-method lookup of `method.rs`: an exact, case-sensitive match
    of the method token against the nine methods the server knows. */
module Methods {
  import opened Common

  datatype Method = Get | Post | Put | Delete | Options | Head | Trace | Connect | Patch

  /** The token each variant is matched against. */
  function Token(m: Method): bytes {
    match m
    case Get => [71, 69, 84]  // GET
    case Post => [80, 79, 83, 84]  // POST
    case Put => [80, 85, 84]  // PUT
    case Delete => [68, 69, 76, 69, 84, 69]  // DELETE
    case Options => [79, 80, 84, 73, 79, 78, 83]  // OPTIONS
    case Head => [72, 69, 65, 68]  // HEAD
    case Trace => [84, 82, 65, 67, 69]  // TRACE
    case Connect => [67, 79, 78, 78, 69, 67, 84]  // CONNECT
    case Patch => [80, 65, 84, 67, 72]  // PATCH
  }

  /** `get_methods`: `Some` exactly for the nine tokens, each mapped to the
      variant whose token it is. */
  function GetMethods(s: bytes): (r: Option<Method>)
    ensures r.Some? ==> Token(r.value) == s
    ensures r.None? ==> forall m: Method :: Token(m) != s
  {
    if s == Token(Get) then Some(Get)
    else if s == Token(Post) then Some(Post)
    else if s == Token(Put) then Some(Put)
    else if s == Token(Delete) then Some(Delete)
    else if s == Token(Options) then Some(Options)
    else if s == Token(Head) then Some(Head)
    else if s == Token(Trace) then Some(Trace)
    else if s == Token(Connect) then Some(Connect)
    else if s == Token(Patch) then Some(Patch)
    else
      OnlyNineTokens(s);
      None
  }

  /** A string that is none of the nine tokens is no variant's token. */
  lemma OnlyNineTokens(s: bytes)
    requires s != Token(Get) && s != Token(Post) && s != Token(Put)
    requires s != Token(Delete) && s != Token(Options) && s != Token(Head)
    requires s != Token(Trace) && s != Token(Connect) && s != Token(Patch)
    ensures forall m: Method :: Token(m) != s
  {
    forall m: Method ensures Token(m) != s {
      match m
      case Get => case Post => case Put => case Delete => case Options =>
      case Head => case Trace => case Connect => case Patch =>
    }
  }

  /** Every variant's token is recognised as that variant, so distinct
      accepted tokens map to distinct variants. */
  lemma TokenRoundTrip(m: Method)
    ensures GetMethods(Token(m)) == Some(m)
  {
    var r := GetMethods(Token(m));
    assert r.Some?;
    TokensDistinct(m, r.value);
  }

  /** No two variants share a token. */
  lemma TokensDistinct(m: Method, n: Method)
    ensures Token(m) == Token(n) ==> m == n
  {
    if Token(m) == Token(n) {
      var t := Token(m);
      assert t[0] == Token(n)[0];
      if |t| > 1 { assert t[1] == Token(n)[1]; }
    }
  }

  /** Matching is case-sensitive: a lower-case method is unknown. */
  lemma LowerCaseRejected()
    ensures GetMethods([103, 101, 116]) == None  // get
  {
    var s := [103, 101, 116];
    forall m: Method ensures Token(m) != s {
      assert Token(m)[0] != s[0];
    }
  }
}
