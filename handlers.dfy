/**
 * The request handlers postSignUp, postAuth and postSignOut, as decision
 * pipelines from the request fields and the database to a status code, a body
 * and a new database. Parsing the JSON body and writing the JSON response are
 * not modelled: the fields arrive as strings and the response is a value.
 */
module Handlers {
  import opened GoStrings
  import opened Validator
  import opened Base64
  import opened Store

  const StatusOK: int := 200
  const StatusBadRequest: int := 400
  const StatusForbidden: int := 403
  const StatusInternalServerError: int := 500

  const BadCredentialsText: string := "Username or Password contains restricted characters or is too long"
  const BadUserText: string := "Username contains restricted characters or is too long"
  const DatabaseProblemText: string := "There was a problem with the database :("
  const InvalidCredentialsText: string := "Invalid Credentials :("
  const OkText: string := "OK"

  /** The JSON string the handler writes: a fixed message, or the token add_token gave. */
  datatype Body = Text(message: string) | TokenValue(token: GoString)

  datatype Response = Response(status: int, body: Body)

  /**
   * postSignUp: 400 if either field fails PW_REGEX, with nothing stored;
   * otherwise the base64 forms of both are handed to add_user, and the answer
   * is 200 if it reports success, 500 if not.
   */
  method PostSignUp(db: Database, user: GoString, pass: GoString, sessionFailed: bool, insertFailed: bool)
    returns (resp: Response)
    modifies db
    ensures db.tokens == old(db.tokens)
    ensures !(MatchesPwRegex(user) && MatchesPwRegex(pass)) ==>
              resp == Response(StatusBadRequest, Text(BadCredentialsText)) &&
              db.credentials == old(db.credentials)
    ensures MatchesPwRegex(user) && MatchesPwRegex(pass) ==>
              db.credentials == old(db.credentials) +
                (if insertFailed then [] else [CredentialRecord(StdEncode(user), StdEncode(pass))]) &&
              resp == if sessionFailed || insertFailed then Response(StatusInternalServerError, Text(DatabaseProblemText))
                      else Response(StatusOK, Text(OkText))
  {
    if !MatchesPwRegex(user) || !MatchesPwRegex(pass) {
      return Response(StatusBadRequest, Text(BadCredentialsText));
    }
    var encryptUser := StdEncode(user);
    var encryptPass := StdEncode(pass);
    var result := db.AddUser(encryptUser, encryptPass, sessionFailed, insertFailed);
    if !result {
      resp := Response(StatusInternalServerError, Text(DatabaseProblemText));
    } else {
      resp := Response(StatusOK, Text(OkText));
    }
  }

  /**
   * postAuth: 400 on a field that fails PW_REGEX; 403 when find_user does not
   * find the encoded pair (`findFailed`: any error in find_user); in both
   * cases nothing changes. Otherwise 200 with whatever add_token returns for
   * the encoded user, `generated` standing for GenerateToken's result. The
   * credentials are never changed.
   */
  method PostAuth(db: Database, user: GoString, pass: GoString, generated: GoString,
                  findFailed: bool, lookupFailed: bool, insertFailed: bool)
    returns (resp: Response)
    modifies db
    ensures db.credentials == old(db.credentials)
    ensures !(MatchesPwRegex(user) && MatchesPwRegex(pass)) ==>
              resp == Response(StatusBadRequest, Text(BadCredentialsText)) && db.tokens == old(db.tokens)
    ensures MatchesPwRegex(user) && MatchesPwRegex(pass) &&
            !(!findFailed && HasCredential(old(db.credentials), CredentialRecord(StdEncode(user), StdEncode(pass)))) ==>
              resp == Response(StatusForbidden, Text(InvalidCredentialsText)) && db.tokens == old(db.tokens)
    ensures MatchesPwRegex(user) && MatchesPwRegex(pass) &&
            !findFailed && HasCredential(old(db.credentials), CredentialRecord(StdEncode(user), StdEncode(pass))) ==>
              var issued := !TokenFound(old(db.tokens), StdEncode(user), lookupFailed) && !insertFailed;
              resp == Response(StatusOK, TokenValue(if issued then generated else [])) &&
              db.tokens == old(db.tokens) + (if issued then [TokenRecord(StdEncode(user), generated)] else [])
    ensures !lookupFailed && OneTokenPerUser(old(db.tokens)) ==> OneTokenPerUser(db.tokens)
  {
    if !MatchesPwRegex(user) || !MatchesPwRegex(pass) {
      return Response(StatusBadRequest, Text(BadCredentialsText));
    }
    var encryptUser := StdEncode(user);
    var encryptPass := StdEncode(pass);
    var result := db.FindUser(encryptUser, encryptPass, findFailed);
    if !result {
      return Response(StatusForbidden, Text(InvalidCredentialsText));
    }
    var token := db.AddToken(encryptUser, generated, lookupFailed, insertFailed);
    resp := Response(StatusOK, TokenValue(token));
  }

  /**
   * postSignOut: 400 if the user fails PW_REGEX, with nothing changed;
   * otherwise revoke_token on the encoded user and the token exactly as
   * supplied (not encoded), and 200 whatever the delete did.
   */
  method PostSignOut(db: Database, user: GoString, token: GoString, deleteFailed: bool)
    returns (resp: Response)
    modifies db
    ensures db.credentials == old(db.credentials)
    ensures !MatchesPwRegex(user) ==>
              resp == Response(StatusBadRequest, Text(BadUserText)) && db.tokens == old(db.tokens)
    ensures MatchesPwRegex(user) ==>
              resp == Response(StatusOK, Text(OkText)) &&
              db.tokens == if deleteFailed then old(db.tokens)
                           else DeleteOne(old(db.tokens), TokenRecord(StdEncode(user), token))
    ensures OneTokenPerUser(old(db.tokens)) ==> OneTokenPerUser(db.tokens)
  {
    if !MatchesPwRegex(user) {
      return Response(StatusBadRequest, Text(BadUserText));
    }
    var encryptUser := StdEncode(user);
    db.RevokeToken(encryptUser, token, deleteFailed);
    resp := Response(StatusOK, Text(OkText));
  }

  /**
   * On any database, a successful sign-up makes the same pair authenticate
   * when find_user reports no store error: the answer is 200, never 403. (A
   * find error after a good sign-up would give 403.) The sign-up is run with
   * no store error, the only case in which it answers 200.
   */
  method SignUpThenAuth(db: Database, user: GoString, pass: GoString, generated: GoString,
                        lookupFailed: bool, insertFailed: bool)
    returns (signUp: Response, auth: Response)
    modifies db
    ensures signUp.status == StatusOK ==> auth.status == StatusOK
  {
    signUp := PostSignUp(db, user, pass, false, false);
    if signUp.status == StatusOK {
      var stored := CredentialRecord(StdEncode(user), StdEncode(pass));
      assert db.credentials[|db.credentials| - 1] == stored;
      assert CredentialSelects(stored, stored);
    }
    auth := PostAuth(db, user, pass, generated, false, lookupFailed, insertFailed);
  }

  /**
   * The lifecycle of one user on an empty database with no store errors:
   * sign-up succeeds; the first authentication returns the generated token;
   * the second returns the empty string, because a token already exists;
   * signing out with that token and authenticating again yields a new token.
   */
  method Lifecycle(user: GoString, pass: GoString, first: GoString, second: GoString)
    returns (signUp: Response, auth1: Response, auth2: Response, signOut: Response, auth3: Response)
    requires MatchesPwRegex(user) && MatchesPwRegex(pass)
    requires IsGeneratedToken(first) && IsGeneratedToken(second)
    ensures signUp == Response(StatusOK, Text(OkText))
    ensures auth1 == Response(StatusOK, TokenValue(first)) && first != []
    ensures auth2 == Response(StatusOK, TokenValue([]))
    ensures signOut == Response(StatusOK, Text(OkText))
    ensures auth3 == Response(StatusOK, TokenValue(second))
  {
    var db := new Database();
    var u, p := StdEncode(user), StdEncode(pass);
    signUp := PostSignUp(db, user, pass, false, false);
    assert CredentialSelects(CredentialRecord(u, p), db.credentials[0]);
    auth1 := PostAuth(db, user, pass, first, false, false, false);
    assert db.tokens == [TokenRecord(u, first)];
    assert TokenSelects(TokenRecord(u, []), db.tokens[0]);
    auth2 := PostAuth(db, user, pass, second, false, false, false);
    signOut := PostSignOut(db, user, first, false);
    assert TokenSelects(TokenRecord(u, first), TokenRecord(u, first));
    assert db.tokens == [];
    auth3 := PostAuth(db, user, pass, second, false, false, false);
  }

  /**
   * Authenticating with any pair other than the one signed up with (another
   * password, or a user who never signed up) gets no token: the stored forms
   * differ because the encoding is injective and never empty.
   */
  method MismatchedCredentials(user: GoString, pass: GoString, otherUser: GoString, otherPass: GoString,
                               generated: GoString)
    returns (signUp: Response, auth: Response)
    requires MatchesPwRegex(user) && MatchesPwRegex(pass)
    requires otherUser != user || otherPass != pass
    ensures signUp == Response(StatusOK, Text(OkText))
    ensures auth == Response(StatusBadRequest, Text(BadCredentialsText)) ||
            auth == Response(StatusForbidden, Text(InvalidCredentialsText))
  {
    var db := new Database();
    signUp := PostSignUp(db, user, pass, false, false);
    if MatchesPwRegex(otherUser) && MatchesPwRegex(otherPass) {
      MatchesPwRegexIff(otherUser);
      MatchesPwRegexIff(otherPass);
      var filter := CredentialRecord(StdEncode(otherUser), StdEncode(otherPass));
      assert !CredentialSelects(filter, db.credentials[0]) by {
        if StdEncode(otherUser) == StdEncode(user) && StdEncode(otherPass) == StdEncode(pass) {
          StdEncodeInjective(otherUser, user);
          StdEncodeInjective(otherPass, pass);
        }
      }
    }
    auth := PostAuth(db, otherUser, otherPass, generated, false, false, false);
  }
}
