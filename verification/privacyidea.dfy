/**
 The second-factor filter (`privacyidea`). `Process` completes the server
 configuration from the shared block in the request state, stores the part
 the OTP step needs, and decides whether the OTP step runs. `Authenticate`
 builds the request for the server's `/validate/samlcheck` endpoint and
 classifies the server's decoded reply.
 */
module PrivacyIdea {
  import opened Wrappers
  import opened PhpValues
  import opened Json

  // ---------------------------------------------------------------------------
  // Server configuration

  /** The filter's configuration array: key and value (null when not set), in
      the order the constructor fills it. */
  type ServerConfig = seq<(string, Value)>

  /** The first entry named `k` of a string-keyed list, the configuration or
      the request fields alike. */
  function Find(c: seq<(string, Value)>, k: string): Option<Value>
  {
    if |c| == 0 then None
    else if c[0].0 == k then Some(c[0].1)
    else Find(c[1..], k)
  }

  /** `$serverconfig[k]`: the first entry with that key, or null. */
  function Field(c: ServerConfig, k: string): Value
  {
    Find(c, k).GetOr(Null)
  }

  const SharedConfigKey: Key := StrKey("privacyidea:serverconfig")
  const StoredConfigKey: Key := StrKey("privacyidea:privacyidea")

  /** `$state['privacyidea:serverconfig'][k]`, null when absent. */
  function Fallback(state: Entries, k: string): Value
  {
    Read(Arr(state), [SharedConfigKey, ArrayKey(k)])
  }

  /** Every field that is null is taken from the shared server configuration in
      the request state; the other fields and the keys stay as they are. */
  function MergeFallback(c: ServerConfig, state: Entries): (r: ServerConfig)
    ensures |r| == |c|
    ensures forall i :: 0 <= i < |c| ==> r[i].0 == c[i].0
    ensures forall i :: 0 <= i < |c| && c[i].1 != Null ==> r[i].1 == c[i].1
    ensures forall i :: 0 <= i < |c| && c[i].1 == Null ==> r[i].1 == Fallback(state, c[i].0)
  {
    if |c| == 0 then []
    else
      var v := if c[0].1 == Null then Fallback(state, c[0].0) else c[0].1;
      var rest := MergeFallback(c[1..], state);
      assert forall i :: 0 < i < |c| ==> c[i] == c[1..][i - 1];
      [(c[0].0, v)] + rest
  }

  /** A configured field reads after the merge as itself when set, and as the
      shared configuration's value for that key when null. */
  lemma {:induction false} MergedField(c: ServerConfig, state: Entries, k: string)
    requires Find(c, k).Some?
    ensures Field(MergeFallback(c, state), k) ==
      if Field(c, k) == Null then Fallback(state, k) else Field(c, k)
  {
    if c[0].0 != k {
      MergedField(c[1..], state, k);
      assert MergeFallback(c, state)[1..] == MergeFallback(c[1..], state);
    }
  }

  /** Merging a second time against the same state changes nothing. */
  lemma MergeIdempotent(c: ServerConfig, state: Entries)
    ensures MergeFallback(MergeFallback(c, state), state) == MergeFallback(c, state)
  {
  }

  /** The five fields the OTP step reads, in the order they are stored. */
  const StoredKeys: seq<string> := ["privacyideaserver", "sslverifyhost", "sslverifypeer", "realm", "uidKey"]

  /** The array stored at `$state['privacyidea:privacyidea']`. */
  function StoredConfig(c: ServerConfig): (v: Value)
    ensures v.Arr? && |v.entries| == |StoredKeys|
    ensures forall i :: 0 <= i < |StoredKeys| ==> v.entries[i] == (StrKey(StoredKeys[i]), Field(c, StoredKeys[i]))
  {
    Arr(seq(|StoredKeys|, i requires 0 <= i < |StoredKeys| => (StrKey(StoredKeys[i]), Field(c, StoredKeys[i]))))
  }

  /** Each of the five stored fields reads back as the merged configuration's
      field, and nothing else is stored. */
  lemma StoredConfigReads(c: ServerConfig, k: string)
    ensures Read(StoredConfig(c), [StrKey(k)]) == if k in StoredKeys then Field(c, k) else Null
  {
    var v := StoredConfig(c);
    if k in StoredKeys {
      var i :| 0 <= i < |StoredKeys| && StoredKeys[i] == k;
      assert forall j :: 0 <= j < i ==> StoredKeys[j] != StoredKeys[i];
      GetFirst(v.entries, StrKey(k), i);
      assert Lookup(v, [StrKey(k)]) == Lookup(Field(c, k), []);
    } else {
      assert !HasKey(v.entries, StrKey(k));
      assert Lookup(v, [StrKey(k)]) == None;
    }
  }

  /** Get finds the value of an entry when no earlier entry has the same key. */
  lemma {:induction false} GetFirst(es: Entries, k: Key, i: nat)
    requires i < |es| && es[i].0 == k
    requires forall j :: 0 <= j < i ==> es[j].0 != k
    ensures Get(es, k) == Some(es[i].1)
  {
    if i > 0 {
      GetFirst(es[1..], k, i - 1);
    }
  }

  // ---------------------------------------------------------------------------
  // process

  /** `$state[enabledPath][enabledKey][0]` when it is set, otherwise true. */
  function EnabledSetting(c: ServerConfig, state: Entries): (r: Value)
    ensures r != Null
    ensures KeyOf(Field(c, "enabledPath")).None? || KeyOf(Field(c, "enabledKey")).None? ==> r == Bool(true)
    ensures forall p, k ::
      KeyOf(Field(c, "enabledPath")) == Some(p) && KeyOf(Field(c, "enabledKey")) == Some(k) ==>
        r == if IsSet(Arr(state), [p, k, IntKey(0)]) then Read(Arr(state), [p, k, IntKey(0)]) else Bool(true)
    ensures r != Bool(true) ==> exists p, k ::
      && KeyOf(Field(c, "enabledPath")) == Some(p) && KeyOf(Field(c, "enabledKey")) == Some(k)
      && Lookup(Arr(state), [p, k, IntKey(0)]) == Some(r)
  {
    match (KeyOf(Field(c, "enabledPath")), KeyOf(Field(c, "enabledKey")))
    case (Some(p), Some(k)) =>
      if IsSet(Arr(state), [p, k, IntKey(0)]) then Read(Arr(state), [p, k, IntKey(0)]) else Bool(true)
    case _ => Bool(true)
  }

  /** What `process` leaves behind: the filter's merged configuration, the
      request state, and whether the OTP step runs (the filter then saves the
      state and redirects to the OTP form). */
  datatype FilterStep = FilterStep(config: ServerConfig, state: Entries, secondFactor: bool)

  function Process(c: ServerConfig, state: Entries): (r: FilterStep)
    ensures r.config == MergeFallback(c, state)
    ensures Lookup(Arr(r.state), [StoredConfigKey]) == Some(StoredConfig(r.config))
    ensures forall k :: k != StoredConfigKey ==> Get(r.state, k) == Get(state, k)
    ensures Field(r.config, "privacyideaserver") == Str("") ==> !r.secondFactor
    ensures Field(r.config, "privacyideaserver") != Str("") ==>
      (r.secondFactor <==> Truthy(EnabledSetting(r.config, r.state)))
  {
    var merged := MergeFallback(c, state);
    var state' := Put(state, StoredConfigKey, StoredConfig(merged));
    var piEnabled := if Field(merged, "privacyideaserver") == Str("") then Bool(false)
                     else EnabledSetting(merged, state');
    FilterStep(merged, state', Truthy(piEnabled))
  }

  /** Only a server URL that is exactly the empty string switches the OTP step
      off by itself: with no stored decision, any other URL, null included,
      keeps it on. */
  lemma SecondFactorByDefault(c: ServerConfig, state: Entries)
    requires Field(Process(c, state).config, "privacyideaserver") != Str("")
    requires forall p, k ::
      (KeyOf(Field(Process(c, state).config, "enabledPath")) == Some(p)
       && KeyOf(Field(Process(c, state).config, "enabledKey")) == Some(k))
      ==> !IsSet(Arr(Process(c, state).state), [p, k, IntKey(0)])
    ensures Process(c, state).secondFactor
  {
  }

  /** A decision stored at `$state[enabledPath][enabledKey][0]` before the
      filter runs, as `checkEntityID` stores it, decides the OTP step: it runs
      exactly when that decision is truthy, so a stored false switches it off.
      The place must not lie under the entry `process` itself overwrites. */
  lemma StoredDecisionDecides(c: ServerConfig, state: Entries, p: Key, k: Key, v: Value)
    requires Field(MergeFallback(c, state), "privacyideaserver") != Str("")
    requires KeyOf(Field(MergeFallback(c, state), "enabledPath")) == Some(p) && p != StoredConfigKey
    requires KeyOf(Field(MergeFallback(c, state), "enabledKey")) == Some(k)
    requires Lookup(Arr(state), [p, k, IntKey(0)]) == Some(v) && v != Null
    ensures Process(c, state).secondFactor == Truthy(v)
  {
    var r := Process(c, state);
    assert [p, k, IntKey(0)][1..] == [k, IntKey(0)];
    assert Lookup(Arr(r.state), [p, k, IntKey(0)]) == Lookup(Arr(state), [p, k, IntKey(0)]);
  }

  // ---------------------------------------------------------------------------
  // authenticate: the request

  /** How reads that find nothing behave in `authenticate`: a missing array
      offset, an offset of a scalar, an array used as a key, a missing
      property or a property of something that is not an object. Under PHP's
      own rules such a read yields null and raises only a notice or warning
      (`NoticeOnly`). A host error handler may turn it into an exception
      (`NoticeThrows`). */
  datatype ReadPolicy = NoticeOnly | NoticeThrows

  /** Whether building the request gets through: always under PHP's own
      rules, and under a throwing handler only when each read
      (`$state['privacyidea:privacyidea']`, its `uidKey` used as a key, the
      user's first value of that attribute, and its `realm`) finds something
      and no truthy optional argument is an array. */
  predicate RequestReadable(policy: ReadPolicy, state: Entries, transactionId: Value, signatureData: Value, clientData: Value)
  {
    || policy == NoticeOnly
    || (&& Lookup(Arr(state), [StoredConfigKey]).Some?
        && Lookup(AuthConfig(state), [StrKey("uidKey")]).Some?
        && KeyOf(Read(AuthConfig(state), [StrKey("uidKey")])).Some?
        && Lookup(Arr(state), [StrKey("Attributes"), KeyOf(Read(AuthConfig(state), [StrKey("uidKey")])).value, IntKey(0)]).Some?
        && Lookup(AuthConfig(state), [StrKey("realm")]).Some?
        && LoggableOptional(transactionId) && LoggableOptional(signatureData) && LoggableOptional(clientData))
  }

  /** A truthy optional argument is put into a debug message before it is
      added (as a string, or through `urlencode`); an array there raises a
      notice or warning, so under a throwing handler it must not be one. */
  predicate LoggableOptional(v: Value)
  {
    !(Truthy(v) && v.Arr?)
  }

  /** Form fields of the validation request, in the order they are added. */
  type Params = seq<(string, Value)>

  /** `$state['privacyidea:privacyidea']`. */
  function AuthConfig(state: Entries): Value
  {
    Read(Arr(state), [StoredConfigKey])
  }

  /** `$state["Attributes"][$cfg['uidKey']][0]`: the first value of the user
      attribute the configuration names; null when absent or when the key is
      an array. */
  function UserName(state: Entries): Value
  {
    match KeyOf(Read(AuthConfig(state), [StrKey("uidKey")]))
    case None => Null
    case Some(k) => Read(Arr(state), [StrKey("Attributes"), k, IntKey(0)])
  }

  /** A field added only when its value is truthy. */
  function Optional(name: string, v: Value): Params
  {
    if Truthy(v) then [(name, v)] else []
  }

  function RequestParams(state: Entries, otp: Value, transactionId: Value, signatureData: Value, clientData: Value): (ps: Params)
    ensures Find(ps, "user") == Some(UserName(state))
    ensures Find(ps, "pass") == Some(otp)
    ensures Find(ps, "realm") == Some(Read(AuthConfig(state), [StrKey("realm")]))
    ensures Find(ps, "transaction_id") == if Truthy(transactionId) then Some(transactionId) else None
    ensures Find(ps, "signaturedata") == if Truthy(signatureData) then Some(signatureData) else None
    ensures Find(ps, "clientdata") == if Truthy(clientData) then Some(clientData) else None
    ensures forall name :: Find(ps, name).Some? ==>
      name in {"user", "pass", "realm", "transaction_id", "signaturedata", "clientdata"}
  {
    var base := [("user", UserName(state)), ("pass", otp), ("realm", Read(AuthConfig(state), [StrKey("realm")]))];
    var tail := Optional("transaction_id", transactionId) + Optional("signaturedata", signatureData)
                + Optional("clientdata", clientData);
    var ps := base + tail;
    BaseParams(UserName(state), otp, Read(AuthConfig(state), [StrKey("realm")]));
    OptionalValue("transaction_id", transactionId);
    OptionalValue("signaturedata", signatureData);
    OptionalValue("clientdata", clientData);
    ParamsAppend(base, tail);
    ParamsAppend(Optional("transaction_id", transactionId) + Optional("signaturedata", signatureData),
                 Optional("clientdata", clientData));
    ParamsAppend(Optional("transaction_id", transactionId), Optional("signaturedata", signatureData));
    ps
  }

  lemma OptionalValue(n: string, v: Value)
    ensures forall name ::
      (Find(Optional(n, v), name) == if name == n && Truthy(v) then Some(v) else None)
  {
  }

  lemma BaseParams(user: Value, pass: Value, realm: Value)
    ensures forall name ::
      (Find([("user", user), ("pass", pass), ("realm", realm)], name) ==
         if name == "user" then Some(user) else if name == "pass" then Some(pass)
         else if name == "realm" then Some(realm) else None)
  {
    var base := [("user", user), ("pass", pass), ("realm", realm)];
    assert base[1..] == [("pass", pass), ("realm", realm)];
    assert base[1..][1..] == [("realm", realm)];
    assert base[1..][1..][1..] == [];
    forall name
      ensures Find(base, name) ==
        if name == "user" then Some(user) else if name == "pass" then Some(pass)
        else if name == "realm" then Some(realm) else None
    {
      assert Find(base, name) == if name == "user" then Some(user) else Find(base[1..], name);
      assert Find(base[1..], name) == if name == "pass" then Some(pass) else Find(base[1..][1..], name);
      assert Find(base[1..][1..], name) == if name == "realm" then Some(realm) else None;
    }
  }

  /** A field is looked up in the first part of a concatenation, then in the
      second. */
  lemma {:induction false} ParamsAppend(a: Params, b: Params)
    ensures forall name ::
      (Find(a + b, name) == if Find(a, name).Some? then Find(a, name) else Find(b, name))
  {
    if |a| > 0 {
      ParamsAppend(a[1..], b);
      assert (a + b)[1..] == a[1..] + b;
    } else {
      assert a + b == b;
    }
  }

  // ---------------------------------------------------------------------------
  // authenticate: the reply

  /** `$j->name`; None stands for the exception `NoticeThrows` raises. */
  function Prop(policy: ReadPolicy, j: Json, name: string): (r: Option<Json>)
    ensures Member(j, name).Some? ==> r == Member(j, name)
    ensures Member(j, name).None? ==> r == (if policy == NoticeOnly then Some(JNull) else None)
  {
    match Member(j, name)
    case Some(v) => Some(v)
    case None => if policy == NoticeOnly then Some(JNull) else None
  }

  /** `property_exists($j, name)`: for an object whether it has the property, for
      a string false (the model assumes a reply string never names a loaded
      class, which PHP would consult, autoloading it if need be); for anything
      else PHP warns and returns null. */
  function HasProp(policy: ReadPolicy, j: Json, name: string): (r: Option<bool>)
    ensures r == Some(true) <==> Member(j, name).Some?
    ensures policy == NoticeOnly ==> r.Some?
    ensures r.None? <==> policy.NoticeThrows? && !j.JObj? && !j.JStr?
  {
    match j
    case JObj(m) => Some(name in m)
    case JStr(_) => Some(false)
    case _ => if policy == NoticeOnly then Some(false) else None
  }

  /** How `authenticate` ends. */
  datatype AuthOutcome =
    | Authenticated                 // returns true
    | Unreadable                    // "not able to read the response"
    | ServerError                   // "some internal error occured"
    | ChallengeResponse(transactionId: Json, message: Json, attributes: Json)
    | WrongUserPass
    | Aborted                       // an exception raised outside the try block

  /** The failure branch: `detail.transaction_id` present means a challenge is
      pending, anything else is a wrong OTP. */
  function DetailOutcome(policy: ReadPolicy, body: Json): (r: AuthOutcome)
    ensures r.ChallengeResponse? || r == WrongUserPass || r == Aborted
    ensures policy == NoticeOnly ==> r != Aborted
    ensures r.ChallengeResponse? ==> At(body, ["detail", "transaction_id"]) == Some(r.transactionId)
    ensures r == WrongUserPass ==> At(body, ["detail", "transaction_id"]).None?
  {
    DetailSteps(body);
    match Prop(policy, body, "detail")
    case None => Aborted
    case Some(detail) =>
      match Prop(policy, detail, "message")
      case None => Aborted
      case Some(message) =>
        match HasProp(policy, detail, "attributes")
        case None => Aborted
        case Some(hasAttributes) =>
          var attributes := if hasAttributes then detail.members["attributes"] else JNull;
          // the U2F test on the attributes only logs, but the test itself may raise
          match (if hasAttributes then HasProp(policy, attributes, "u2fSignRequest") else Some(false))
          case None => Aborted
          case Some(_) =>
            match HasProp(policy, detail, "transaction_id")
            case None => Aborted
            case Some(true) => ChallengeResponse(detail.members["transaction_id"], message, attributes)
            case Some(false) => WrongUserPass
  }

  /** Classify the decoded reply: the try block reads `result`, its `status`,
      its `value` and that one's `auth`; a status other than exactly true is a
      server error; an auth of exactly true is success. The safety property:
      the OTP is accepted exactly when `result.status` and `result.value.auth`
      are both exactly true, and under PHP's own rules the catch block is
      never reached and nothing aborts. */
  function Classify(policy: ReadPolicy, body: Json): (r: AuthOutcome)
    ensures r == Authenticated <==>
      Status(body) == Some(JBool(true)) && Auth(body) == Some(JBool(true))
    ensures r == Unreadable || r == Aborted ==> policy == NoticeThrows
  {
    AtSteps(body);
    match Prop(policy, body, "result")
    case None => Unreadable
    case Some(result) =>
      match Prop(policy, result, "status")
      case None => Unreadable
      case Some(status) =>
        match Prop(policy, result, "value")
        case None => Unreadable
        case Some(value) =>
          match Prop(policy, value, "auth")
          case None => Unreadable
          case Some(auth) =>
            if status != JBool(true) then ServerError
            else if auth != JBool(true) then DetailOutcome(policy, body)
            else Authenticated
  }

  /** The reply's `result.status`, when present. */
  function Status(body: Json): Option<Json>
  {
    At(body, ["result", "status"])
  }

  /** The reply's `result.value.auth`, when present. */
  function Auth(body: Json): Option<Json>
  {
    At(body, ["result", "value", "auth"])
  }

  lemma AtCons(j: Json, name: string, rest: seq<string>)
    ensures At(j, [name] + rest) == match Member(j, name)
      case None => None
      case Some(c) => At(c, rest)
  {
    assert ([name] + rest)[1..] == rest;
  }

  lemma AtSteps(body: Json)
    ensures Status(body) == match Member(body, "result")
      case None => None
      case Some(r) => Member(r, "status")
    ensures Auth(body) == match Member(body, "result")
      case None => None
      case Some(r) => match Member(r, "value")
        case None => None
        case Some(v) => Member(v, "auth")
  {
    AtCons(body, "result", ["status"]);
    AtCons(body, "result", ["value", "auth"]);
    match Member(body, "result") {
      case None =>
      case Some(r) =>
        AtCons(r, "status", []);
        AtCons(r, "value", ["auth"]);
        match Member(r, "value") {
          case None =>
          case Some(v) => AtCons(v, "auth", []);
        }
    }
  }

  /** A status that is not exactly true is a server error whatever `auth`
      says, as soon as the four reads of the try block succeed, which under
      PHP's own rules they always do. */
  lemma StatusNotTrueIsServerError(policy: ReadPolicy, body: Json)
    requires Status(body) != Some(JBool(true))
    requires policy == NoticeThrows ==> Status(body).Some? && Auth(body).Some?
    ensures Classify(policy, body) == ServerError
  {
    AtSteps(body);
  }

  /** With status true and auth not true, a `detail.transaction_id` starts
      challenge-response, carrying that id, `detail.message` and
      `detail.attributes` (null when absent). */
  lemma ChallengeWhenTransactionPending(body: Json)
    requires Status(body) == Some(JBool(true)) && Auth(body) != Some(JBool(true))
    requires At(body, ["detail", "transaction_id"]).Some?
    ensures Classify(NoticeOnly, body) == ChallengeResponse(
      At(body, ["detail", "transaction_id"]).value,
      At(body, ["detail", "message"]).GetOr(JNull),
      At(body, ["detail", "attributes"]).GetOr(JNull))
  {
    AtSteps(body);
    DetailSteps(body);
  }

  /** With status true and auth not true, and no `detail.transaction_id`, the
      OTP was wrong. */
  lemma WrongUserPassOtherwise(body: Json)
    requires Status(body) == Some(JBool(true)) && Auth(body) != Some(JBool(true))
    requires At(body, ["detail", "transaction_id"]).None?
    ensures Classify(NoticeOnly, body) == WrongUserPass
  {
    AtSteps(body);
    DetailSteps(body);
  }

  lemma DetailSteps(body: Json)
    ensures forall name ::
      (At(body, ["detail", name]) ==
         match Member(body, "detail")
         case None => None
         case Some(d) => Member(d, name))
  {
    forall name
      ensures At(body, ["detail", name]) ==
        (match Member(body, "detail")
         case None => None
         case Some(d) => Member(d, name))
    {
      AtCons(body, "detail", [name]);
      match Member(body, "detail") {
        case None =>
        case Some(d) => AtCons(d, name, []);
      }
    }
  }

  /** The reply has every field the classification reads, as objects where it
      reads further: the reading policy then makes no difference. */
  ghost predicate WellFormedReply(body: Json)
  {
    && Status(body).Some? && Auth(body).Some?
    && (Status(body) == Some(JBool(true)) && Auth(body) != Some(JBool(true)) ==>
          && At(body, ["detail", "message"]).Some?
          && (At(body, ["detail", "attributes"]).Some? ==>
                At(body, ["detail", "attributes"]).value.JObj? || At(body, ["detail", "attributes"]).value.JStr?))
  }

  lemma PoliciesAgree(body: Json)
    requires WellFormedReply(body)
    ensures Classify(NoticeOnly, body) == Classify(NoticeThrows, body)
  {
    AtSteps(body);
    DetailSteps(body);
  }

  /** `authenticate`: build the request, send it to the server (a parameter
      here: the HTTP exchange and JSON decoding are not part of this model)
      and classify its reply. Under a throwing handler a read that finds
      nothing while the request is built ends the call before anything is
      sent. */
  function Authenticate(
    policy: ReadPolicy, state: Entries, otp: Value, transactionId: Value, signatureData: Value, clientData: Value,
    server: (Params, Value) -> Json): (r: AuthOutcome)
    ensures !RequestReadable(policy, state, transactionId, signatureData, clientData) ==> r == Aborted
    ensures RequestReadable(policy, state, transactionId, signatureData, clientData) ==>
      var reply := server(RequestParams(state, otp, transactionId, signatureData, clientData), AuthConfig(state));
      r == Authenticated <==> Status(reply) == Some(JBool(true)) && Auth(reply) == Some(JBool(true))
    ensures policy == NoticeOnly ==> r != Aborted && r != Unreadable
  {
    if !RequestReadable(policy, state, transactionId, signatureData, clientData) then Aborted
    else
      var reply := server(RequestParams(state, otp, transactionId, signatureData, clientData), AuthConfig(state));
      Classify(policy, reply)
  }
}
