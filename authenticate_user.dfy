/** src/middlewares/authenticateUser.ts: the access token is taken from the
    Authorization header, verified (jwt.verify with the access secret is an
    oracle passed as a function), and the user it names is attached to the
    request. */
module AuthenticateUser {
  import opened Common
  import opened AppErrors
  import opened UserModel
  import opened AuthController

  const MissingAccessToken := AppError("Access token required.", 401)
  const InvalidAccessToken := AppError("Invalid or expired access token.", 403)

  /** The position of the first ' ' in s. */
  function FirstSpace(s: string): (r: Option<nat>)
    ensures r.None? <==> ' ' !in s
    ensures r.Some? ==> r.value < |s| && s[r.value] == ' ' && ' ' !in s[..r.value]
  {
    if s == [] then None
    else if s[0] == ' ' then Some(0)
    else
      var r := FirstSpace(s[1..]);
      assert s == [s[0]] + s[1..];
      if r.None? then None
      else
        assert s[..r.value + 1] == [s[0]] + s[1..][..r.value];
        Some(r.value + 1)
  }

  /** `s.split(" ")`: the pieces between single spaces (only U+0020
      separates), never fewer than one. */
  function Split(s: string): (pieces: seq<string>)
    ensures |pieces| >= 1
    ensures forall i :: 0 <= i < |pieces| ==> ' ' !in pieces[i]
    decreases |s|
  {
    var i := FirstSpace(s);
    if i.None? then [s] else [s[..i.value]] + Split(s[i.value + 1..])
  }

  /** `pieces.join(" ")`. */
  function Join(pieces: seq<string>): string
    requires |pieces| >= 1
  {
    if |pieces| == 1 then pieces[0] else pieces[0] + " " + Join(pieces[1..])
  }

  /** Joining a first piece onto the rest puts a single space between them. */
  lemma JoinCons(p: string, pieces: seq<string>)
    requires |pieces| >= 1
    ensures Join([p] + pieces) == p + " " + Join(pieces)
  {
    var all := [p] + pieces;
    assert all[0] == p && all[1..] == pieces;
  }

  /** A string is its part before position k, the character at k and the
      part after it. */
  lemma CutAt(s: string, k: nat)
    requires k < |s| && s[k] == ' '
    ensures s == s[..k] + " " + s[k + 1..]
  {
    var t := s[..k] + " " + s[k + 1..];
    assert |t| == |s|;
    forall j | 0 <= j < |s|
      ensures t[j] == s[j]
    {
      if j < k {
        assert t[j] == s[..k][j];
      } else if j > k {
        assert t[j] == s[k + 1..][j - k - 1];
      }
    }
  }

  /** Splitting loses nothing: joining the pieces gives the header back. */
  lemma {:induction false} JoinSplit(s: string)
    ensures Join(Split(s)) == s
    decreases |s|
  {
    var i := FirstSpace(s);
    if i.None? {
      assert Split(s) == [s];
    } else {
      var k := i.value;
      var head := s[..k];
      var rest := s[k + 1..];
      var pieces := Split(rest);
      assert Split(s) == [head] + pieces;
      JoinSplit(rest);
      JoinCons(head, pieces);
      CutAt(s, k);
    }
  }

  /** In a word, a space and the rest, the first space is the one after the
      word. */
  lemma {:induction false} FirstSpaceAfterWord(p: string, rest: string)
    requires ' ' !in p
    ensures FirstSpace(p + " " + rest) == Some(|p|)
  {
    if p != [] {
      var s := p + " " + rest;
      assert s[0] == p[0] && s[1..] == p[1..] + " " + rest;
      FirstSpaceAfterWord(p[1..], rest);
    }
  }

  /** Pieces without spaces come back from a join unchanged. */
  lemma {:induction false} SplitJoin(pieces: seq<string>)
    requires |pieces| >= 1 && forall i :: 0 <= i < |pieces| ==> ' ' !in pieces[i]
    ensures Split(Join(pieces)) == pieces
    decreases |pieces|
  {
    var p := pieces[0];
    if |pieces| == 1 {
      assert FirstSpace(p).None?;
    } else {
      var rest := Join(pieces[1..]);
      var s := p + " " + rest;
      FirstSpaceAfterWord(p, rest);
      assert s[..|p|] == p && s[|p| + 1..] == rest;
      SplitJoin(pieces[1..]);
    }
  }

  /** `authHeader && authHeader.split(" ")[1]`, kept only when it is a
      non-empty string. */
  function ExtractToken(header: Option<string>): Option<string> {
    if header.None? then None
    else
      var pieces := Split(header.value);
      if |pieces| < 2 || pieces[1] == "" then None else Some(pieces[1])
  }

  /** The scheme is never looked at: any first word followed by a single
      space and the token yields the token, with or without more words
      after it; a header without a space yields none. */
  lemma {:induction false} TokenAfterAnyScheme(scheme: string, token: string, more: seq<string>)
    requires ' ' !in scheme && ' ' !in token && token != ""
    requires forall i :: 0 <= i < |more| ==> ' ' !in more[i]
    ensures ExtractToken(Some(scheme + " " + token)) == Some(token)
    ensures |more| >= 1 ==> ExtractToken(Some(scheme + " " + token + " " + Join(more))) == Some(token)
    ensures ExtractToken(Some(scheme)) == None
  {
    var two := [scheme, token];
    ExtractFromPieces(two);
    JoinCons(scheme, [token]);
    assert [scheme] + [token] == two;
    assert Join([token]) == token;
    SplitJoin([scheme]);
    if |more| >= 1 {
      var tail := [token] + more;
      var pieces := [scheme] + tail;
      assert pieces[1] == token;
      assert forall i :: 0 <= i < |pieces| ==> ' ' !in pieces[i] by {
        forall i | 0 <= i < |pieces| ensures ' ' !in pieces[i] {
          if i >= 2 { assert pieces[i] == more[i - 2]; }
        }
      }
      ExtractFromPieces(pieces);
      JoinCons(token, more);
      JoinCons(scheme, tail);
      SpacedAssoc(scheme, token, Join(more));
    }
  }

  /** Words joined by spaces may be grouped either way. */
  lemma SpacedAssoc(a: string, b: string, c: string)
    ensures a + " " + b + " " + c == a + " " + (b + " " + c)
  {
  }

  /** The token is the second piece of a join of space-free pieces. */
  lemma ExtractFromPieces(pieces: seq<string>)
    requires |pieces| >= 2 && pieces[1] != ""
    requires forall i :: 0 <= i < |pieces| ==> ' ' !in pieces[i]
    ensures ExtractToken(Some(Join(pieces))) == Some(pieces[1])
  {
    SplitJoin(pieces);
  }

  /** The decision chain: the user the request is authenticated as, or the
      error it is refused with. Store call 0 is the lookup by the token's
      id, which fails for a malformed id. */
  function Authenticate(store: UserStore, header: Option<string>, verify: string -> Option<TokenPayload>, fault: StoreFault)
    : (r: Result<User>)
    requires store.Valid()
    reads store
    ensures ExtractToken(header).None? ==> r == Err(MissingAccessToken)
    ensures ExtractToken(header).Some? && verify(ExtractToken(header).value).None? ==> r == Err(InvalidAccessToken)
    ensures r.Ok? <==>
      && ExtractToken(header).Some? && verify(ExtractToken(header).value).Some?
      && IsObjectIdValid(verify(ExtractToken(header).value).value.id) && !Throws(fault, 0)
      && verify(ExtractToken(header).value).value.id in store.users
    ensures r.Ok? ==> r.value in store.users.Values && r.value.id == verify(ExtractToken(header).value).value.id
    ensures (ExtractToken(header).Some? && verify(ExtractToken(header).value).Some? && !r.Ok?
             && IsObjectIdValid(verify(ExtractToken(header).value).value.id) && !Throws(fault, 0)) ==>
      r == Err(UserNotFound)
  {
    var token := ExtractToken(header);
    if token.None? then Err(MissingAccessToken)
    else
      var decoded := verify(token.value);
      if decoded.None? then Err(InvalidAccessToken)
      else if !IsObjectIdValid(decoded.value.id) || Throws(fault, 0) then Err(DatabaseError)
      else if decoded.value.id !in store.users then Err(UserNotFound)
      else Ok(store.users[decoded.value.id])
  }

  /** A request as the middleware sees it. */
  class AuthenticatedRequest {
    const authorization: Option<string>
    var user: Option<User>

    constructor (authorization: Option<string>)
      ensures this.authorization == authorization && user.None?
    {
      this.authorization := authorization;
      this.user := None;
    }

    /** authenticateUser: on success `req.user` is the user found and
        next() is called; on every failure `req.user` is left alone. */
    method AuthenticateUser(store: UserStore, verify: string -> Option<TokenPayload>, fault: StoreFault) returns (g: Gate)
      requires store.Valid()
      modifies this
      ensures var outcome := Authenticate(store, authorization, verify, fault);
        && (outcome.Ok? ==> g == Proceed && user == Some(outcome.value))
        && (outcome.Err? ==> g == Reject(outcome.error) && user == old(user))
    {
      var outcome := Authenticate(store, authorization, verify, fault);
      if outcome.Err? {
        g := Reject(outcome.error);
        return;
      }
      user := Some(outcome.value);
      g := Proceed;
    }
  }
}
