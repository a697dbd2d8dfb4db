/** The credential side of the backend: how e-mail addresses are normalized
    before they are stored or looked up, how a bearer token is taken out of the
    `Authorization` header, and the password hasher and token service, which
    are foreign libraries and appear here only through their contracts. */
module Credentials {
  import opened Wrappers
  import opened Text

  /** `email.toLowerCase().trim()`: the key under which a user is stored and
      looked up (server.js lines 59 and 76). */
  function NormalizeEmail(email: string): (r: string)
    ensures r != [] ==> !IsSpace(r[0]) && !IsSpace(r[|r| - 1])
  {
    Trim(Lower(email))
  }

  /** Every character of a normalized address is already lower case. */
  lemma NormalizedIsLower(email: string)
    ensures forall k :: 0 <= k < |NormalizeEmail(email)| ==>
      LowerChar(NormalizeEmail(email)[k]) == NormalizeEmail(email)[k]
  {
    var x := Lower(email);
    var i, j := TrimIsSlice(x);
    forall k | 0 <= k < |NormalizeEmail(email)|
      ensures LowerChar(NormalizeEmail(email)[k]) == NormalizeEmail(email)[k]
    {
      assert NormalizeEmail(email)[k] == x[i + k] == LowerChar(email[i + k]);
    }
  }

  /** Normalizing a stored (normalized) address again changes nothing, so a
      user's stored e-mail finds that same user. */
  lemma NormalizeIdempotent(email: string)
    ensures NormalizeEmail(NormalizeEmail(email)) == NormalizeEmail(email)
  {
    NormalizedIsKey(email);
    KeyIsNormal(NormalizeEmail(email));
  }

  /** The shape of a stored address: every character is already lower case
      and neither end is white space. */
  ghost predicate IsKey(e: string) {
    && (forall k :: 0 <= k < |e| ==> LowerChar(e[k]) == e[k])
    && (e != [] ==> !IsSpace(e[0]) && !IsSpace(e[|e| - 1]))
  }

  /** Normalizing always yields an address of that shape ... */
  lemma NormalizedIsKey(email: string)
    ensures IsKey(NormalizeEmail(email))
  {
    NormalizedIsLower(email);
  }

  /** ... and an address of that shape is its own normalization. */
  lemma KeyIsNormal(e: string)
    requires IsKey(e)
    ensures NormalizeEmail(e) == e
  {
    assert Lower(e) == e;
    assert e[0..|e|] == e;
    TrimUnique(e, 0, |e|);
  }

  /** Two addresses that differ only in letter case and in surrounding white
      space normalize to the same key. */
  lemma NormalizeIgnoresCaseAndPadding(email: string, variant: string, before: string, after: string)
    requires AllSpace(before) && AllSpace(after)
    requires |variant| == |email|
    requires forall k :: 0 <= k < |email| ==> LowerChar(variant[k]) == LowerChar(email[k])
    ensures NormalizeEmail(before + variant + after) == NormalizeEmail(email)
  {
    var b, a := Lower(before), Lower(after);
    assert Lower(variant) == Lower(email);
    assert Lower(before + variant + after) == b + Lower(email) + a;
    TrimIgnoresPadding(b, Lower(email), a);
  }

  /** `authHeader && authHeader.split(' ')[1]`, kept only when it is a
      non-empty string (server.js lines 43-45). The scheme word in front of the
      token is not checked. */
  function BearerToken(header: Option<string>): (token: Option<string>)
    ensures token.Some? ==> token.value != [] && ' ' !in token.value
  {
    match header
    case None => None
    case Some(h) =>
      var words := Split(h, ' ');
      if |words| >= 2 && words[1] != [] then Some(words[1]) else None
  }

  /** A header "<word> <token>", optionally followed by a space and anything,
      yields exactly that token. */
  lemma {:induction false} BearerTokenOf(word: string, token: string, rest: string)
    requires ' ' !in word && ' ' !in token && token != []
    requires rest == [] || rest[0] == ' '
    ensures BearerToken(Some(word + [' '] + token + rest)) == Some(token)
  {
    var tail := [' '] + token + rest;
    assert word + [' '] + token + rest == word + tail;
    SplitAfterPlain(word, tail, ' ');
    assert tail[1..] == token + rest;
    SplitAfterPlain(token, rest, ' ');
    if rest != [] {
      assert Split(rest, ' ')[0] == [];
    }
    assert Split(token + rest, ' ')[0] == token;
  }

  /** Conversely, a token is only found in a header of that shape: the token
      is the second space-separated word. */
  lemma {:induction false} BearerTokenShape(header: string) returns (word: string, rest: string)
    requires BearerToken(Some(header)).Some?
    ensures var token := BearerToken(Some(header)).value;
      && ' ' !in word && ' ' !in token && token != []
      && (rest == [] || rest[0] == ' ')
      && header == word + [' '] + token + rest
  {
    var words := Split(header, ' ');
    JoinSplit(header, ' ');
    word := words[0];
    var token := words[1];
    assert Join(words, ' ') == word + [' '] + Join(words[1..], ' ');
    if |words| > 2 {
      rest := [' '] + Join(words[2..], ' ');
      assert words[1..][1..] == words[2..];
      assert Join(words[1..], ' ') == token + rest;
    } else {
      rest := [];
      assert Join(words[1..], ' ') == token;
    }
  }

  /** A header without a space holds no token. */
  lemma NoSpaceNoToken(header: string)
    requires ' ' !in header
    ensures BearerToken(Some(header)) == None
  {
    SplitAfterPlain(header, [], ' ');
    assert header + [] == header;
  }

  /** The password hasher (bcrypt): `hash` takes the password and a salt, which
      bcrypt draws at random; `compare` checks a password against a stored
      hash. */
  type Salt = nat
  datatype Hasher = Hasher(hash: (string, Salt) -> string, compare: (string, string) -> bool)

  /** What the backend relies on: a hash made from a password, with any salt,
      accepts that password. */
  ghost predicate HasherSound(h: Hasher) {
    forall password, salt :: h.compare(password, h.hash(password, salt))
  }

  /** The claims a token carries and the public view of a user: `{id, name, email}`. */
  datatype Claims = Claims(id: nat, name: string, email: string)

  /** Why the token library rejects a token. The backend answers all of them alike. */
  datatype TokenError = Malformed | BadSignature | Expired

  datatype Verification = Verified(claims: Claims) | Rejected(reason: TokenError)

  /** The token service (jsonwebtoken with the process-wide secret): `sign`
      issues a token for claims, `verify` returns the signed claims or fails.
      A token here depends on its claims alone (no issue or expiry time), and
      a token this service issued verifies for ever: expiry is not modelled,
      and `Expired` stands only for tokens from elsewhere. */
  datatype TokenService = TokenService(sign: Claims -> string, verify: string -> Verification)

  /** What the backend relies on: an issued token verifies to the claims it
      was issued for, and it is one non-empty word (compact serialization has
      no spaces), so it can travel in a bearer header; and a token verifies to
      some claims only if it is the one issued for them, so a tampered or
      forged token is rejected. */
  ghost predicate TokenSound(ts: TokenService) {
    && (forall c :: ts.verify(ts.sign(c)) == Verified(c) && ts.sign(c) != [] && ' ' !in ts.sign(c))
    && (forall t, c :: ts.verify(t) == Verified(c) ==> t == ts.sign(c))
  }
}
