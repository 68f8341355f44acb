/** The Basic-auth gate: `verify_basic_auth` and `authenticate_request`.
    The stored users (read from `credentials.json` on each call) are given as a
    list of records. Every rejection is an `HTTPException` that carries the
    `WWW-Authenticate: Basic` challenge. */
module Auth {
  import opened Wrappers
  import opened Http
  import opened Strings
  import Bytes
  import Base64
  import Utf8

  /** One entry of the stored `users` list. */
  datatype UserRecord = UserRecord(username: string, passwordHash: string)

  datatype Verdict = Authorized | Rejected(error: HttpError)

  const MissingHeader: HttpError := HttpError(Unauthorized, "Authorization header missing", BasicChallenge)
  const InvalidType: HttpError := HttpError(Unauthorized, "Invalid authentication type", BasicChallenge)
  const InvalidFormat: HttpError := HttpError(BadRequest, "Invalid credentials format", BasicChallenge)
  const IncorrectCredentials: HttpError := HttpError(Unauthorized, "Incorrect username or password", BasicChallenge)

  /** `auth_type.lower() == "basic"`. ASCII folding decides this exactly:
      no other character lowercases to one of the letters of "basic". */
  predicate IsBasicScheme(scheme: string)
  {
    Lower(scheme) == "basic"
  }

  /** The parsing half of `verify_basic_auth`: split the header into scheme
      and token, check the scheme, base64- and UTF-8-decode the token and
      unpack `user:password`. Every `ValueError` on the way is the 400 error. */
  function ParseCredentials(header: string): (r: Result<(string, string), HttpError>)
    ensures r.Failure? ==> r.error == InvalidFormat || r.error == InvalidType
    ensures r == Failure(InvalidType) <==> |Words(header)| == 2 && !IsBasicScheme(Words(header)[0])
    ensures r.Success? ==> |Words(header)| == 2 && IsBasicScheme(Words(header)[0])
    ensures r.Success? ==> ':' !in r.value.0 && ':' !in r.value.1
    ensures r.Success? ==> Base64.Decode(Words(header)[1]).Some?
    ensures |Words(header)| == 2 && IsBasicScheme(Words(header)[0]) &&
            Base64.Decode(Words(header)[1]).Some? &&
            Utf8.Decode(Base64.Decode(Words(header)[1]).value).Some? &&
            Occurrences(Utf8.Decode(Base64.Decode(Words(header)[1]).value).value, ':') == 1
            ==> r.Success?
    ensures r.Success? ==>
      Utf8.Decode(Base64.Decode(Words(header)[1]).value) == Some(r.value.0 + ":" + r.value.1)
  {
    var words := Words(header);
    if |words| != 2 then Failure(InvalidFormat)
    else if !IsBasicScheme(words[0]) then Failure(InvalidType)
    else
      match Base64.Decode(words[1])
      case None => Failure(InvalidFormat)
      case Some(bytes) =>
        match Utf8.Decode(bytes)
        case None => Failure(InvalidFormat)
        case Some(text) =>
          var parts := SplitOn(text, ':');
          if |parts| != 2 then Failure(InvalidFormat)
          else
            JoinOfSplit(text, ':');
            Success((parts[0], parts[1]))
  }

  /** What `verify_basic_auth` decides for a header and the stored users. */
  function BasicAuthVerdict(header: string, users: seq<UserRecord>): (v: Verdict)
    ensures v.Rejected? ==> v.error.headers == BasicChallenge
    ensures v.Rejected? ==> v.error.status == BadRequest || v.error.status == Unauthorized
  {
    match ParseCredentials(header)
    case Failure(e) => Rejected(e)
    case Success((user, password)) =>
      if UserRecord(user, password) in users then Authorized else Rejected(IncorrectCredentials)
  }

  /** What `authenticate_request` decides for the (possibly absent) header. */
  function RequestVerdict(header: Option<string>, users: seq<UserRecord>): (v: Verdict)
    ensures v.Rejected? ==> v.error.headers == BasicChallenge
    ensures v.Rejected? ==> v.error.status == BadRequest || v.error.status == Unauthorized
    ensures (header.None? || header.value == "") ==> v == Rejected(MissingHeader)
  {
    if header.None? || header.value == "" then Rejected(MissingHeader)
    else BasicAuthVerdict(header.value, users)
  }

  /** `verify_basic_auth`: parse the header, then search the stored users in
      order and stop at the first record whose username and password hash
      both equal the supplied ones. */
  method VerifyBasicAuth(header: string, users: seq<UserRecord>) returns (v: Verdict)
    ensures v == BasicAuthVerdict(header, users)
  {
    var parsed := ParseCredentials(header);
    if parsed.Failure? {
      return Rejected(parsed.error);
    }
    var (user, password) := parsed.value;
    for i := 0 to |users|
      invariant forall j :: 0 <= j < i ==> users[j] != UserRecord(user, password)
    {
      if users[i].username == user && users[i].passwordHash == password {
        return Authorized;
      }
    }
    return Rejected(IncorrectCredentials);
  }

  /** `authenticate_request`: a missing or empty header is refused before
      anything else happens; otherwise the header is verified. */
  method AuthenticateRequest(header: Option<string>, users: seq<UserRecord>) returns (v: Verdict)
    ensures v == RequestVerdict(header, users)
  {
    if header.None? || header.value == "" {
      return Rejected(MissingHeader);
    }
    v := VerifyBasicAuth(header.value, users);
  }

  /** A header that does not split into exactly two words is a 400, whatever is stored. */
  lemma WrongWordCountRejected(header: string, users: seq<UserRecord>)
    requires |Words(header)| != 2
    ensures BasicAuthVerdict(header, users) == Rejected(InvalidFormat)
  {
  }

  /** The scheme test accepts exactly the 32 upper/lower-case spellings of "basic". */
  lemma {:induction false} SchemeCaseInsensitive(scheme: string)
    ensures IsBasicScheme(scheme) <==>
      |scheme| == 5 && forall i :: 0 <= i < 5 ==> scheme[i] == "basic"[i] || scheme[i] == "BASIC"[i]
  {
    if |scheme| == 5 {
      if forall i :: 0 <= i < 5 ==> scheme[i] == "basic"[i] || scheme[i] == "BASIC"[i] {
        assert Lower(scheme) == "basic" by {
          forall i | 0 <= i < 5 ensures Lower(scheme)[i] == "basic"[i] {
            assert scheme[i] == "basic"[i] || scheme[i] == "BASIC"[i];
          }
        }
      }
      if IsBasicScheme(scheme) {
        forall i | 0 <= i < 5 ensures scheme[i] == "basic"[i] || scheme[i] == "BASIC"[i] {
          assert LowerChar(scheme[i]) == "basic"[i];
        }
      }
    } else {
      assert |Lower(scheme)| != |"basic"|;
    }
  }

  /** Any other scheme is refused with 401 before the token is looked at, so
      even an undecodable token gets "Invalid authentication type". */
  lemma OtherSchemeRejected(header: string, users: seq<UserRecord>)
    requires |Words(header)| == 2 && !IsBasicScheme(Words(header)[0])
    ensures BasicAuthVerdict(header, users) == Rejected(InvalidType)
  {
  }

  /** A token that is not base64, or whose bytes are not UTF-8, is a 400. */
  lemma UndecodableTokenRejected(header: string, users: seq<UserRecord>)
    requires |Words(header)| == 2 && IsBasicScheme(Words(header)[0])
    requires Base64.Decode(Words(header)[1]).None? ||
             Utf8.Decode(Base64.Decode(Words(header)[1]).value).None?
    ensures BasicAuthVerdict(header, users) == Rejected(InvalidFormat)
  {
  }

  /** Decoded text with no colon or with more than one is a 400. */
  lemma ColonCountRejected(header: string, users: seq<UserRecord>, text: string)
    requires |Words(header)| == 2 && IsBasicScheme(Words(header)[0])
    requires Base64.Decode(Words(header)[1]).Some?
    requires Utf8.Decode(Base64.Decode(Words(header)[1]).value) == Some(text)
    requires Occurrences(text, ':') != 1
    ensures BasicAuthVerdict(header, users) == Rejected(InvalidFormat)
  {
  }

  /** Access is granted only through the stored record that the header's
      own username and password name, and neither of them holds a colon. */
  lemma AuthorizedRecordHasNoColon(header: string, users: seq<UserRecord>)
    requires BasicAuthVerdict(header, users) == Authorized
    ensures ParseCredentials(header).Success?
    ensures var (user, password) := ParseCredentials(header).value;
      UserRecord(user, password) in users && ':' !in user && ':' !in password
  {
  }

  /** A stored record whose username or password hash holds a colon never
      lets anyone in: adding it to the store changes no verdict to Authorized. */
  lemma ColonRecordNeverMatches(header: string, r: UserRecord, users: seq<UserRecord>)
    requires ':' in r.username || ':' in r.passwordHash
    requires BasicAuthVerdict(header, [r] + users) == Authorized
    ensures BasicAuthVerdict(header, users) == Authorized
  {
    AuthorizedRecordHasNoColon(header, [r] + users);
  }

  /** A base64 token is one word: it is never empty for non-empty bytes and
      holds no whitespace. */
  lemma TokenIsWord(bytes: seq<Bytes.byte>)
    requires bytes != []
    ensures Base64.Encode(bytes) != [] && NoSpace(Base64.Encode(bytes))
  {
    var token := Base64.Encode(bytes);
    Base64.EncodeLength(bytes);
    Base64.EncodeChars(bytes);
    forall i | 0 <= i < |token| ensures !IsSpace(token[i]) {
      assert Base64.IsEncodingChar(token[i]);
    }
  }

  /** A "basic" scheme, one space and a token split into exactly those two words. */
  lemma SchemeAndTokenWords(scheme: string, token: string)
    requires IsBasicScheme(scheme)
    requires token != [] && NoSpace(token)
    ensures Words(scheme + " " + token) == [scheme, token]
  {
    SchemeCaseInsensitive(scheme);
    assert NoSpace(scheme);
    assert Join([scheme, token], ' ') == scheme + " " + token;
    WordsOfJoin([scheme, token]);
  }

  /** A header built from a scheme spelling of "basic" and the base64 of the
      UTF-8 of `user:password` parses back to that pair. */
  lemma ParseEncodedCredentials(scheme: string, user: string, password: string)
    requires IsBasicScheme(scheme)
    requires ':' !in user && ':' !in password
    ensures ParseCredentials(scheme + " " + Base64.Encode(Utf8.Encode(user + ":" + password)))
         == Success((user, password))
  {
    var text := user + ":" + password;
    var bytes := Utf8.Encode(text);
    var token := Base64.Encode(bytes);
    TokenIsWord(bytes);
    SchemeAndTokenWords(scheme, token);
    Base64.DecodeEncode(bytes);
    Utf8.DecodeEncode(text);
    assert Join([user, password], ':') == text;
    SplitOfJoin([user, password], ':');
  }

  /** Such a header is accepted exactly when that pair is stored. */
  lemma EncodedCredentialsVerdict(scheme: string, user: string, password: string, users: seq<UserRecord>)
    requires IsBasicScheme(scheme)
    requires ':' !in user && ':' !in password
    ensures BasicAuthVerdict(scheme + " " + Base64.Encode(Utf8.Encode(user + ":" + password)), users)
         == if UserRecord(user, password) in users then Authorized else Rejected(IncorrectCredentials)
  {
    ParseEncodedCredentials(scheme, user, password);
  }

  /** Only membership decides: stores holding the same records, in any order
      and with any repetition, give every header the same verdict. */
  lemma StoredOrderIrrelevant(header: string, a: seq<UserRecord>, b: seq<UserRecord>)
    requires forall r :: r in a <==> r in b
    ensures BasicAuthVerdict(header, a) == BasicAuthVerdict(header, b)
  {
  }

  /** The worked example's token: the base64 of the UTF-8 of "alice:p1". */
  lemma ExampleBytes()
    ensures Utf8.Encode("alice:p1") == [97, 108, 105, 99, 101, 58, 112, 49]
  {
    Utf8.EncodeAscii("alice:p1");
  }

  lemma ExampleGroups()
    ensures Base64.EncodeGroup(97, 108, 105) == "YWxp"
    ensures Base64.EncodeGroup(99, 101, 58) == "Y2U6"
    ensures Base64.EncodeLastTwo(112, 49) == "cDE="
  {
  }

  lemma ExampleEncodeTail()
    ensures Base64.Encode([99, 101, 58, 112, 49]) == "Y2U6cDE="
  {
    var b: seq<Bytes.byte> := [99, 101, 58, 112, 49];
    ExampleGroups();
    assert b[3..] == [112, 49];
  }

  lemma ExampleEncode()
    ensures Base64.Encode([97, 108, 105, 99, 101, 58, 112, 49]) == "YWxpY2U6cDE="
  {
    var b: seq<Bytes.byte> := [97, 108, 105, 99, 101, 58, 112, 49];
    ExampleGroups();
    ExampleEncodeTail();
    assert b[3..] == [99, 101, 58, 112, 49];
  }

  lemma ExampleToken(user: string, password: string)
    requires user == "alice" && password == "p1"
    ensures Base64.Encode(Utf8.Encode(user + ":" + password)) == "YWxpY2U6cDE="
  {
    assert user + ":" + password == "alice:p1";
    ExampleBytes();
    ExampleEncode();
  }

  /** The example header is the scheme, one space and the token. */
  lemma ExampleHeaderText(header: string, scheme: string, token: string)
    requires header == "Basic YWxpY2U6cDE=" && scheme == "Basic" && token == "YWxpY2U6cDE="
    ensures header == scheme + " " + token
  {
  }

  /** A request whose header carries a "basic" scheme and the encoded
      credentials of a stored record is let through. */
  lemma EncodedHeaderAuthorized(header: string, scheme: string, user: string, password: string, users: seq<UserRecord>)
    requires IsBasicScheme(scheme)
    requires ':' !in user && ':' !in password
    requires header == scheme + " " + Base64.Encode(Utf8.Encode(user + ":" + password))
    requires UserRecord(user, password) in users
    ensures RequestVerdict(Some(header), users) == Authorized
  {
    EncodedCredentialsVerdict(scheme, user, password, users);
  }

  /** The worked example: with the single record alice/p1 stored, the header
      `Basic YWxpY2U6cDE=` is accepted. */
  lemma ExampleHeaders(header: string, users: seq<UserRecord>)
    requires header == "Basic YWxpY2U6cDE="
    requires users == [UserRecord("alice", "p1")]
    ensures RequestVerdict(Some(header), users) == Authorized
  {
    var scheme, user, password := "Basic", "alice", "p1";
    ExampleToken(user, password);
    ExampleHeaderText(header, scheme, Base64.Encode(Utf8.Encode(user + ":" + password)));
    assert IsBasicScheme(scheme);
    EncodedHeaderAuthorized(header, scheme, user, password, users);
  }

  /** A request whose header carries a "basic" scheme and the encoded
      credentials of a pair that is not stored gets the 401 for incorrect
      credentials. */
  lemma EncodedHeaderRefused(header: string, scheme: string, user: string, password: string, users: seq<UserRecord>)
    requires IsBasicScheme(scheme)
    requires ':' !in user && ':' !in password
    requires header == scheme + " " + Base64.Encode(Utf8.Encode(user + ":" + password))
    requires UserRecord(user, password) !in users
    ensures RequestVerdict(Some(header), users) == Rejected(IncorrectCredentials)
  {
    EncodedCredentialsVerdict(scheme, user, password, users);
  }
}
