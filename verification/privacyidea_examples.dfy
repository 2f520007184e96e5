/**
 Replies of the authentication server and the outcome `authenticate` gives
 them, under both reading policies.
 */
module PrivacyIdeaExamples {
  import opened Wrappers
  import opened PhpValues
  import opened Json
  import opened PrivacyIdea

  function Reply(status: Json, auth: Json): Json
  {
    JObj(map["result" := JObj(map["status" := status, "value" := JObj(map["auth" := auth])])])
  }

  /** `{"result":{"status":true,"value":{"auth":true}}}` is a success. */
  lemma AcceptedReply(policy: ReadPolicy)
    ensures Classify(policy, Reply(JBool(true), JBool(true))) == Authenticated
  {
  }

  /** A failed check that names a transaction starts challenge-response. */
  lemma ChallengeReply(policy: ReadPolicy)
    ensures Classify(policy, JObj(map[
        "result" := JObj(map["status" := JBool(true), "value" := JObj(map["auth" := JBool(false)])]),
        "detail" := JObj(map["message" := JStr("wrong"), "transaction_id" := JStr("tx1")])]))
      == ChallengeResponse(JStr("tx1"), JStr("wrong"), JNull)
  {
  }

  /** A failed check without a transaction is a wrong OTP. */
  lemma RejectedReply(policy: ReadPolicy)
    ensures Classify(policy, JObj(map[
        "result" := JObj(map["status" := JBool(true), "value" := JObj(map["auth" := JBool(false)])]),
        "detail" := JObj(map["message" := JStr("wrong")])]))
      == WrongUserPass
  {
  }

  /** A status of false is a server error whatever `auth` says. */
  lemma FailedStatusReply(policy: ReadPolicy, auth: Json)
    ensures Classify(policy, Reply(JBool(false), auth)) == ServerError
  {
  }

  /** `{"result":{"status":false}}`: under PHP's own rules the missing `value`
      reads as null and the reply is a server error; a host that turns notices
      into exceptions reports it as unreadable. */
  lemma StatusWithoutValue()
    ensures Classify(NoticeOnly, JObj(map["result" := JObj(map["status" := JBool(false)])])) == ServerError
    ensures Classify(NoticeThrows, JObj(map["result" := JObj(map["status" := JBool(false)])])) == Unreadable
  {
  }

  /** A reply without `result` is a server error under PHP's own rules and
      unreadable under a throwing handler; never a success. */
  lemma ReplyWithoutResult()
    ensures Classify(NoticeOnly, JObj(map[])) == ServerError
    ensures Classify(NoticeThrows, JObj(map[])) == Unreadable
  {
  }

  /** A status of 1 is truthy in PHP but not `true`: the comparison is strict. */
  lemma NumericStatusReply(policy: ReadPolicy)
    ensures Classify(policy, Reply(JNum(1), JBool(true))) == ServerError
  {
  }

  /** The transaction id "0" is falsy in PHP and is not sent. */
  lemma ZeroTransactionIdNotSent(state: Entries, otp: Value)
    ensures Find(RequestParams(state, otp, Str("0"), Null, Null), "transaction_id") == None
  {
  }

  /** An empty server URL switches the OTP step off even when the stored
      decision asks for it. */
  lemma EmptyUrlSwitchesOff(state: Entries)
    ensures !Process([("privacyideaserver", Str(""))], state).secondFactor
  {
    assert Field(MergeFallback([("privacyideaserver", Str(""))], state), "privacyideaserver") == Str("");
  }

  /** Without the stored configuration a throwing handler ends `authenticate`
      before the request is sent, whatever the server would reply; under PHP's
      own rules the request goes out with a null user and realm. */
  lemma MissingStoredConfig(otp: Value, server: (Params, Value) -> Json)
    ensures Authenticate(NoticeThrows, [], otp, Null, Null, Null, server) == Aborted
    ensures Authenticate(NoticeOnly, [], otp, Null, Null, Null, server)
         == Classify(NoticeOnly, server([("user", Null), ("pass", otp), ("realm", Null)], Null))
  {
    assert !RequestReadable(NoticeThrows, [], Null, Null, Null) by {
      assert Lookup(Arr([]), [StoredConfigKey]) == None;
    }
    assert AuthConfig([]) == Null by {
      assert Lookup(Arr([]), [StoredConfigKey]) == None;
    }
    assert Read(Null, [StrKey("uidKey")]) == Null && Read(Null, [StrKey("realm")]) == Null;
    assert UserName([]) == Null;
    assert RequestParams([], otp, Null, Null, Null) == [("user", Null), ("pass", otp), ("realm", Null)];
  }

  /** The decision false that `checkEntityID` stores at
      `$state["privacyIDEA"]["enabled"][0]` switches the OTP step off. */
  lemma StoredFalseSwitchesOff()
    ensures !Process([("privacyideaserver", Str("https://pi")), ("enabledPath", Str("privacyIDEA")), ("enabledKey", Str("enabled"))],
                     [(StrKey("privacyIDEA"), Arr([(StrKey("enabled"), Arr([(IntKey(0), Bool(false))]))]))]).secondFactor
  {
    var c := [("privacyideaserver", Str("https://pi")), ("enabledPath", Str("privacyIDEA")), ("enabledKey", Str("enabled"))];
    var state := [(StrKey("privacyIDEA"), Arr([(StrKey("enabled"), Arr([(IntKey(0), Bool(false))]))]))];
    WordKey("privacyIDEA");
    WordKey("enabled");
    var merged := MergeFallback(c, state);
    assert merged == c by {
      assert |merged| == |c|;
      assert forall i :: 0 <= i < |c| ==> merged[i] == c[i];
    }
    assert Field(c, "enabledPath") == Str("privacyIDEA") by {
      assert c[1..] == [("enabledPath", Str("privacyIDEA")), ("enabledKey", Str("enabled"))];
    }
    assert Field(c, "enabledKey") == Str("enabled") by {
      assert c[1..][1..] == [("enabledKey", Str("enabled"))];
    }
    assert Field(c, "privacyideaserver") == Str("https://pi");
    var path := [StrKey("privacyIDEA"), StrKey("enabled"), IntKey(0)];
    assert path[1..] == [StrKey("enabled"), IntKey(0)] && path[1..][1..] == [IntKey(0)] && path[1..][1..][1..] == [];
    assert Lookup(Arr(state), path) == Some(Bool(false));
    StoredDecisionDecides(c, state, StrKey("privacyIDEA"), StrKey("enabled"), Bool(false));
  }

  /** A truthy array as transaction id is converted to a string for a debug
      message before it is added: a throwing handler ends `authenticate` there,
      whatever the state and the server's reply. */
  lemma ArrayTransactionIdAborts(state: Entries, otp: Value, server: (Params, Value) -> Json)
    ensures Authenticate(NoticeThrows, state, otp, Arr([(IntKey(0), Str("x"))]), Null, Null, server) == Aborted
  {
  }
}
