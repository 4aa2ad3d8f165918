/** The shared-token gate. */
module Auth {
  import opened Bytes
  import opened Wrappers
  import opened Text
  import opened MiniJson

  const TOKEN: Buf := Ascii("token")

  /** `constantTimeEqual`: differences are collected with or over the whole of
      `expected`, and the result is exactly equality, for all lengths. */
  method ConstantTimeEqual(expected: Buf, got: Buf) returns (r: bool)
    ensures r <==> expected == got
  {
    var n := |expected|;
    var diff: byte := if n == |got| then 0 else 1;
    for i := 0 to n
      invariant diff == 0 ==> |got| == n && expected[..i] == got[..i]
      invariant diff != 0 ==> expected != got
    {
      var g := if got == [] then 0 else got[i % |got|];
      ghost var before := diff;
      XorZero(expected[i], g);
      OrZero(diff, Xor(expected[i], g));
      diff := Or(diff, Xor(expected[i], g));
      if before == 0 {
        Wrapped(i, |got|);
        assert expected[..i + 1] == expected[..i] + [expected[i]];
        assert got[..i + 1] == got[..i] + [got[i]];
      }
    }
    r := diff == 0;
  }

  lemma Wrapped(i: nat, n: nat)
    requires i < n
    ensures i % n == i
  {
  }

  /** The token of a HELLO body; empty if it has none. */
  function TokenOf(body: Buf): Buf {
    match GetString(body, TOKEN)
    case Some(t) => t
    case None => []
  }

  /** Whether a HELLO body carries the expected token. */
  predicate Authorized(expected: Buf, body: Buf) { TokenOf(body) == expected }

  /** `helloAuthorized`. */
  method HelloAuthorized(expected: Buf, body: Buf) returns (r: bool)
    ensures r == Authorized(expected, body)
  {
    var token: Buf := [];
    var found, value := ReadString(body, TOKEN);
    if found { token := value; }
    r := ConstantTimeEqual(expected, token);
  }

  // What the clients write as the key, in ASCII: token.
  const KEY: Buf := [116, 111, 107, 101, 110]

  lemma KeyIs()
    ensures TOKEN == KEY
  {
  }

  /** A HELLO that carries an escaped token is authorised exactly when the softened
      token is the expected one; for a token without lossy characters, exactly when
      the token is the expected one. */
  lemma HelloAuthorizedIff(expected: Buf, front: Buf, token: Buf, tail: Buf)
    requires Find(front + Field(KEY, token) + tail, Quoted(KEY), 0) == Some(|front|)
    ensures Authorized(expected, front + Field(KEY, token) + tail) <==> expected == Soften(token)
    ensures Clean(token) ==> (Authorized(expected, front + Field(KEY, token) + tail) <==> expected == token)
  {
    KeyIs();
    hide Field, GetString, Find;
    FieldRoundTrip(front, KEY, token, tail);
    SoftenIff(token);
  }

  /** A client that sends exactly the configured token, escaped, is let in if and only
      if the token has no lossy character. */
  lemma OwnTokenAuthorizedIff(expected: Buf, front: Buf, tail: Buf)
    requires Find(front + Field(KEY, expected) + tail, Quoted(KEY), 0) == Some(|front|)
    ensures Authorized(expected, front + Field(KEY, expected) + tail) <==> Clean(expected)
  {
    hide Field, GetString, Find, Authorized;
    HelloAuthorizedIff(expected, front, expected, tail);
    SoftenIff(expected);
  }

  /** A configured token with a lossy character is not matched by any token in an escaped field. */
  lemma LossyTokenNeverAuthorized(expected: Buf, front: Buf, token: Buf, tail: Buf)
    requires !Clean(expected)
    requires Find(front + Field(KEY, token) + tail, Quoted(KEY), 0) == Some(|front|)
    ensures !Authorized(expected, front + Field(KEY, token) + tail)
  {
    hide Field, GetString, Find, Authorized;
    HelloAuthorizedIff(expected, front, token, tail);
    SoftenedIsClean(token);
  }

  lemma SoftenedIsClean(token: Buf)
    ensures Clean(Soften(token))
  {
  }

  /** Without a quoted "token" in it, a HELLO is authorised exactly when no token is required. */
  lemma MissingToken(expected: Buf, body: Buf)
    requires Find(body, Quoted(KEY), 0).None?
    ensures Authorized(expected, body) <==> expected == []
  {
    KeyIs();
  }
}
