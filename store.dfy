/**
 * The document store behind find_user, add_user, add_token and revoke_token:
 * a database with the collections `credentials` and `tokens`, each an ordered
 * sequence of documents. Connecting, pinging and disconnecting are not modelled;
 * an error from any of them, or from the collection call itself, is an input
 * flag of the operation, with the effect the Go code gives it.
 */
module Store {
  import opened GoStrings

  datatype Option<T> = None | Some(value: T)

  /** `credential_record`: a credentials document, and the filter find_user builds. */
  datatype CredentialRecord = CredentialRecord(user: GoString, pass: GoString)

  /** `token_record`: a tokens document, and the filter add_token and revoke_token build. */
  datatype TokenRecord = TokenRecord(user: GoString, token: GoString)

  /**
   * A filter field tagged `omitempty`: an empty value is left out of the
   * filter document, so it constrains nothing; any other value must equal the
   * document's field exactly.
   */
  predicate FieldSelects(filter: GoString, value: GoString) {
    filter == [] || filter == value
  }

  predicate CredentialSelects(filter: CredentialRecord, doc: CredentialRecord) {
    FieldSelects(filter.user, doc.user) && FieldSelects(filter.pass, doc.pass)
  }

  predicate TokenSelects(filter: TokenRecord, doc: TokenRecord) {
    FieldSelects(filter.user, doc.user) && FieldSelects(filter.token, doc.token)
  }

  /** Whether some credentials document is selected by the filter. */
  predicate HasCredential(docs: seq<CredentialRecord>, filter: CredentialRecord) {
    exists i :: 0 <= i < |docs| && CredentialSelects(filter, docs[i])
  }

  /** Whether some tokens document is selected by the filter. */
  predicate HasToken(docs: seq<TokenRecord>, filter: TokenRecord) {
    exists i :: 0 <= i < |docs| && TokenSelects(filter, docs[i])
  }

  /**
   * The document FindOne and DeleteOne act on. Mongo promises the first match
   * in natural order only; this model fixes that order as sequence (insertion)
   * order and takes the first document there that the filter selects.
   */
  function FirstSelected<T>(docs: seq<T>, selects: T -> bool): (k: Option<nat>)
    ensures k.None? ==> forall i :: 0 <= i < |docs| ==> !selects(docs[i])
    ensures k.Some? ==> k.value < |docs| && selects(docs[k.value]) &&
                        forall i :: 0 <= i < k.value ==> !selects(docs[i])
    decreases |docs|
  {
    if docs == [] then None
    else if selects(docs[0]) then Some(0)
    else match FirstSelected(docs[1..], selects)
      case None => None
      case Some(k) => Some(k + 1)
  }

  /**
   * `DeleteOne` on the tokens collection: removes the first selected document
   * in sequence order and keeps the others in order; selecting nothing leaves the collection as
   * it was.
   */
  function DeleteOne(docs: seq<TokenRecord>, filter: TokenRecord): (r: seq<TokenRecord>)
    ensures !HasToken(docs, filter) ==> r == docs
    ensures HasToken(docs, filter) ==>
              exists k :: 0 <= k < |docs| && TokenSelects(filter, docs[k]) &&
                          (forall i :: 0 <= i < k ==> !TokenSelects(filter, docs[i])) &&
                          r == docs[..k] + docs[k + 1..]
  {
    match FirstSelected(docs, (d: TokenRecord) => TokenSelects(filter, d))
    case None => docs
    case Some(k) => docs[..k] + docs[k + 1..]
  }

  /** The intended invariant of the tokens collection: at most one document per user. */
  predicate OneTokenPerUser(docs: seq<TokenRecord>) {
    forall i, j :: 0 <= i < j < |docs| ==> docs[i].user != docs[j].user
  }

  /**
   * Whether add_token's FindOne, whose filter carries only the user, reports
   * a document. A failed lookup reads as "none found".
   */
  predicate TokenFound(docs: seq<TokenRecord>, user: GoString, lookupFailed: bool) {
    !lookupFailed && HasToken(docs, TokenRecord(user, []))
  }

  /** What GenerateToken returns: the 32 lower-case hex digits of an MD5 digest. */
  predicate IsGeneratedToken(t: GoString) {
    |t| == 32 &&
    forall i :: 0 <= i < |t| ==> ('0' as int <= t[i] <= '9' as int) || ('a' as int <= t[i] <= 'f' as int)
  }

  /**
   * Appending a document for a user that add_token's lookup did not find keeps
   * one token per user. An empty user gives an empty filter, which finds any
   * document, so it is only appended to an empty collection.
   */
  lemma AppendUnfoundKeepsOneTokenPerUser(docs: seq<TokenRecord>, user: GoString, token: GoString)
    requires OneTokenPerUser(docs)
    requires !HasToken(docs, TokenRecord(user, []))
    ensures OneTokenPerUser(docs + [TokenRecord(user, token)])
  {
    var r := docs + [TokenRecord(user, token)];
    forall i, j | 0 <= i < j < |r| ensures r[i].user != r[j].user {
      if j == |docs| {
        assert !TokenSelects(TokenRecord(user, []), docs[i]);
      } else {
        assert r[i] == docs[i] && r[j] == docs[j];
      }
    }
  }

  /** The document at position `i` once the one at `k` is removed. */
  lemma RemovedAt(docs: seq<TokenRecord>, k: nat, i: nat)
    requires k < |docs| && i < |docs| - 1
    ensures (docs[..k] + docs[k + 1..])[i] == docs[if i < k then i else i + 1]
  {
    if i < k {
      assert (docs[..k] + docs[k + 1..])[i] == docs[..k][i];
    } else {
      assert (docs[..k] + docs[k + 1..])[i] == docs[k + 1..][i - k];
    }
  }

  /** Removing one document keeps one token per user. */
  lemma DeleteOneKeepsOneTokenPerUser(docs: seq<TokenRecord>, filter: TokenRecord)
    requires OneTokenPerUser(docs)
    ensures OneTokenPerUser(DeleteOne(docs, filter))
  {
    var r := DeleteOne(docs, filter);
    if HasToken(docs, filter) {
      var k :| 0 <= k < |docs| && r == docs[..k] + docs[k + 1..];
      forall i, j | 0 <= i < j < |r| ensures r[i].user != r[j].user {
        RemovedAt(docs, k, i);
        RemovedAt(docs, k, j);
      }
    }
  }

  /**
   * Under one token per user, revoking a stored (user, token) pair leaves no
   * document for that user: a later lookup finds none.
   */
  lemma RevokedUserHasNoToken(docs: seq<TokenRecord>, user: GoString, token: GoString)
    requires OneTokenPerUser(docs)
    requires user != []
    requires HasToken(docs, TokenRecord(user, token))
    ensures !HasToken(DeleteOne(docs, TokenRecord(user, token)), TokenRecord(user, []))
  {
    var r := DeleteOne(docs, TokenRecord(user, token));
    var k :| 0 <= k < |docs| && TokenSelects(TokenRecord(user, token), docs[k]) && r == docs[..k] + docs[k + 1..];
    forall i | 0 <= i < |r| ensures !TokenSelects(TokenRecord(user, []), r[i]) {
      RemovedAt(docs, k, i);
    }
  }

  /**
   * An empty token leaves the token field out of the filter, so revoking with
   * it removes the user's first document in sequence order, whatever its
   * token. Which one is "first" matters only when the user has several
   * documents, which needs an earlier lookup error in add_token.
   */
  lemma EmptyTokenRevokesFirstOfUser(docs: seq<TokenRecord>, user: GoString, k: nat)
    requires k < |docs| && user != [] && docs[k].user == user
    requires forall i :: 0 <= i < k ==> docs[i].user != user
    ensures DeleteOne(docs, TokenRecord(user, [])) == docs[..k] + docs[k + 1..]
  {
    var r := DeleteOne(docs, TokenRecord(user, []));
    assert TokenSelects(TokenRecord(user, []), docs[k]);
    var k' :| 0 <= k' < |docs| && TokenSelects(TokenRecord(user, []), docs[k']) &&
              (forall i :: 0 <= i < k' ==> !TokenSelects(TokenRecord(user, []), docs[i])) &&
              r == docs[..k'] + docs[k' + 1..];
    assert k' == k;
  }

  /** The database the server connects to: its two collections. */
  class Database {
    var credentials: seq<CredentialRecord>
    var tokens: seq<TokenRecord>

    constructor ()
      ensures credentials == [] && tokens == []
    {
      credentials := [];
      tokens := [];
    }

    /**
     * find_user: true exactly when no step of the call failed (`failed` stands
     * for a connect, ping, FindOne or disconnect error) and some credentials
     * document has this user and this password. Nothing is changed.
     */
    method FindUser(user: GoString, pass: GoString, failed: bool) returns (found: bool)
      ensures found <==> !failed && HasCredential(credentials, CredentialRecord(user, pass))
    {
      found := true;
      if failed {
        found := false;
      }
      var filter := CredentialRecord(user, pass);
      var hit := FirstSelected(credentials, (d: CredentialRecord) => CredentialSelects(filter, d));
      if hit.None? {
        found := false;
      }
    }

    /**
     * add_user: inserts the pair without looking for an existing one. A ping
     * or disconnect error (`sessionFailed`) makes the answer false but does not
     * stop the insert; an insert error (`insertFailed`) means nothing is added.
     */
    method AddUser(user: GoString, pass: GoString, sessionFailed: bool, insertFailed: bool) returns (ok: bool)
      modifies this
      ensures credentials == old(credentials) + (if insertFailed then [] else [CredentialRecord(user, pass)])
      ensures tokens == old(tokens)
      ensures ok <==> !sessionFailed && !insertFailed
    {
      ok := true;
      if sessionFailed {
        ok := false;
      }
      if insertFailed {
        ok := false;
      } else {
        credentials := credentials + [CredentialRecord(user, pass)];
      }
    }

    /**
     * add_token: looks for a document of the user; if one is found the answer
     * is the empty string and nothing changes. Otherwise (also when the lookup
     * itself fails) the token `generated` (GenerateToken's result) is inserted
     * and returned, or, if the insert fails, nothing is added and the answer is
     * empty. Ping and disconnect errors are only logged.
     */
    method AddToken(user: GoString, generated: GoString, lookupFailed: bool, insertFailed: bool)
      returns (token: GoString)
      modifies this
      ensures credentials == old(credentials)
      ensures TokenFound(old(tokens), user, lookupFailed) ==> token == [] && tokens == old(tokens)
      ensures !TokenFound(old(tokens), user, lookupFailed) && insertFailed ==>
                token == [] && tokens == old(tokens)
      ensures !TokenFound(old(tokens), user, lookupFailed) && !insertFailed ==>
                token == generated && tokens == old(tokens) + [TokenRecord(user, generated)]
      ensures !lookupFailed && OneTokenPerUser(old(tokens)) ==> OneTokenPerUser(tokens)
    {
      token := [];
      var filter := TokenRecord(user, []);
      var hit := FirstSelected(tokens, (d: TokenRecord) => TokenSelects(filter, d));
      if lookupFailed || hit.None? {
        if !insertFailed {
          if !lookupFailed && OneTokenPerUser(tokens) {
            AppendUnfoundKeepsOneTokenPerUser(tokens, user, generated);
          }
          tokens := tokens + [TokenRecord(user, generated)];
          token := generated;
        }
      }
    }

    /**
     * revoke_token: DeleteOne with the filter (user, token), either field left
     * out when empty. Matching nothing is not an error; a delete error
     * (`deleteFailed`) leaves the collection as it was. Nothing is reported.
     */
    method RevokeToken(user: GoString, token: GoString, deleteFailed: bool)
      modifies this
      ensures tokens == if deleteFailed then old(tokens) else DeleteOne(old(tokens), TokenRecord(user, token))
      ensures credentials == old(credentials)
      ensures OneTokenPerUser(old(tokens)) ==> OneTokenPerUser(tokens)
    {
      if !deleteFailed {
        if OneTokenPerUser(tokens) {
          DeleteOneKeepsOneTokenPerUser(tokens, TokenRecord(user, token));
        }
        tokens := DeleteOne(tokens, TokenRecord(user, token));
      }
    }
  }
}
