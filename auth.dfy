/** Bearer tokens (generate_token and get_current_user in backend/server.py).
    A token is "token_", the user id, "_" and the issue time in whole seconds;
    the user id is read back as the second '_'-separated field. The clock is a
    parameter, and the users collection is the set of registered user ids. */
module Auth {
  import opened Text
  import opened QuizTypes

  /** InvalidToken: the token lacks the prefix (401).
      UserNotFound: the id read from it is not a registered user (401). */
  datatype AuthError = InvalidToken | UserNotFound

  const TokenPrefix: string := "token_"

  /** generate_token(user_id) issued at `now` seconds since the epoch. */
  function GenerateToken(userId: string, now: nat): (token: string)
    ensures StartsWith(token, TokenPrefix)
    ensures Count(token, '_') == 2 + Count(userId, '_')
  {
    CountAppend(TokenPrefix + userId + "_", NatToDecimal(now));
    CountAppend(TokenPrefix + userId, "_");
    CountAppend(TokenPrefix, userId);
    NoSeparatorInDecimal(now);
    TokenPrefix + userId + "_" + NatToDecimal(now)
  }

  /** The user id get_current_user reads from a token: refused without the
      prefix, otherwise `token.split("_")[1]`, which is the text after the
      prefix up to the next '_' or the end. */
  function TokenUserId(token: string): (r: Result<string, AuthError>)
    ensures r.Failure? <==> !StartsWith(token, TokenPrefix)
    ensures r.Failure? ==> r.error == InvalidToken
    ensures r.Success? ==>
      var rest := token[|TokenPrefix|..];
      && '_' !in r.value
      && StartsWith(rest, r.value)
      && (|r.value| == |rest| || rest[|r.value|] == '_')
  {
    if !StartsWith(token, TokenPrefix) then Failure(InvalidToken)
    else
      var rest := token[|TokenPrefix|..];
      assert token == "token" + ("_" + rest);
      SplitPrefix("token", "_" + rest, '_');
      assert ("_" + rest)[1..] == rest;
      Success(Split(token, '_')[1])
  }

  /** get_current_user: the registered user a token names. */
  function CurrentUser(token: string, registered: set<string>): (r: Result<string, AuthError>)
    ensures r.Success? ==> r.value in registered && StartsWith(token, TokenPrefix)
    ensures r.Success? ==> TokenUserId(token) == Success(r.value)
    ensures r == Failure(InvalidToken) <==> !StartsWith(token, TokenPrefix)
    ensures r == Failure(UserNotFound) <==> TokenUserId(token).Success? && TokenUserId(token).value !in registered
  {
    match TokenUserId(token)
    case Failure(e) => Failure(e)
    case Success(userId) => if userId in registered then Success(userId) else Failure(UserNotFound)
  }

  lemma {:induction false} CountAppend(s: string, t: string)
    ensures Count(s + t, '_') == Count(s, '_') + Count(t, '_')
  {
    if s != [] {
      assert (s + t)[1..] == s[1..] + t;
      CountAppend(s[1..], t);
    } else {
      assert s + t == t;
    }
  }

  lemma {:induction false} NoSeparatorCount(s: string)
    requires '_' !in s
    ensures Count(s, '_') == 0
  {
    if s != [] {
      NoSeparatorCount(s[1..]);
    }
  }

  lemma NoSeparatorInDecimal(n: nat)
    ensures '_' !in NatToDecimal(n) && Count(NatToDecimal(n), '_') == 0
  {
    var s := NatToDecimal(n);
    assert forall i :: 0 <= i < |s| ==> IsDigit(s[i]);
    NoSeparatorCount(s);
  }

  /** For a user id without '_', a token splits into exactly its three
      fields, so the id read back is the id it was issued for. */
  lemma TokenRoundTrip(userId: string, now: nat)
    requires '_' !in userId
    ensures Split(GenerateToken(userId, now), '_') == ["token", userId, NatToDecimal(now)]
    ensures TokenUserId(GenerateToken(userId, now)) == Success(userId)
  {
    var parts := ["token", userId, NatToDecimal(now)];
    NoSeparatorInDecimal(now);
    assert Join(parts[1..], '_') == userId + "_" + NatToDecimal(now);
    assert Join(parts, '_') == GenerateToken(userId, now);
    SplitJoin(parts, '_');
  }

  /** A freshly issued token for a registered user without '_' in its id
      authenticates as that user, and one for an unregistered id is refused. */
  lemma TokenAuthenticates(userId: string, now: nat, registered: set<string>)
    requires '_' !in userId
    ensures CurrentUser(GenerateToken(userId, now), registered)
      == if userId in registered then Success(userId) else Failure(UserNotFound)
  {
    TokenRoundTrip(userId, now);
  }

  /** A user id containing '_' is cut at its first '_' when read back. */
  lemma TokenTruncatesAtUnderscore(head: string, tail: string, now: nat)
    requires '_' !in head
    ensures TokenUserId(GenerateToken(head + "_" + tail, now)) == Success(head)
  {
    var token := GenerateToken(head + "_" + tail, now);
    var after := tail + "_" + NatToDecimal(now);
    assert token == "token" + "_" + (head + "_" + after);
    SplitAtFirst("token", head + "_" + after, '_');
    SplitAtFirst(head, after, '_');
  }
}
