# privacyIDEA authentication-processing filters for simpleSAMLphp: a Dafny model

This project models the two decision procedures of the simpleSAMLphp
privacyIDEA module and proves properties of them.

* **`checkEntityID`** decides whether a SAML request needs the second factor.
  It matches the requesting service provider's entity ID against a list of
  regular expressions. A pattern without a leading `/` is wrapped in slashes
  first. A listed provider gets `false` ("no second factor"). The user gets
  `true` back when one of their attribute values matches an exclusion rule.
  The rules are looked up under the normalised form of the first matching
  pattern. The decision is stored at `$state[setPath][setKey][0]`.
* **`privacyidea`** runs the second-factor step. `process` fills every unset
  field of the filter's server configuration from
  `$state['privacyidea:serverconfig']`. It stores five fields at
  `$state['privacyidea:privacyidea']`. It then decides whether the OTP step
  runs: the stored decision at `$state[enabledPath][enabledKey][0]` (default
  true), forced off by an empty server URL. `authenticate` builds the
  `/validate/samlcheck` request and classifies the server's decoded reply as
  success, unreadable reply, server error, challenge-response or wrong OTP.

Layout (one module per file):

* `wrappers.dfy`: `Option` and `Result`.
* `decimal.dfy`: how PHP spells integers. Used for array keys and for string
  conversion.
* `php_values.dfy`: PHP values and ordered arrays.
  * Array keys (`ArrayKey`, `KeyOf`), `isset`, truthiness, string conversion.
  * The nested assignment `$a[k1][k2][k3] = v` with auto-vivification.
* `regex_list.dfy`: `str_matches_reg_arr`. The regular-expression engine is a
  parameter: a `Matcher` says whether `preg_match` returns 1.
* `check_entity_id.dfy` and `check_entity_id_examples.dfy`: the entity-ID
  filter, plus worked requests.
* `json.dfy`, `privacyidea.dfy` and `privacyidea_examples.dfy`: the decoded
  reply, the second-factor filter, and worked replies.

What `authenticate` does with a read that finds nothing depends on the host.
The model covers both behaviours as a `ReadPolicy`:

* `NoticeOnly`: PHP's own rule. Reading a missing array offset or property,
  or a property of a non-object, yields `null` and raises a notice. Under this
  rule the `try` block in `authenticate` never throws, so its `catch` is never
  reached.
* `NoticeThrows`: a host error handler turns such notices into exceptions.
  This is the situation the `catch` ("not able to read the response") is
  written for. It covers building the request as well. A missing stored
  configuration, `uidKey`, user attribute or `realm` ends the call before
  anything is sent. So does a truthy optional argument that is an array,
  because it is turned into a debug message before it is added.

The safety property holds under both policies: success requires a `status`
of exactly `true` and an `auth` of exactly `true`.

The two `process` functions follow PHP's own rule only (see "## Left out").

What the code does with malformed replies:

* The `catch` message ("not able to read the response") suggests that an
  unreadable reply is an error of its own. Under PHP's own rules that branch
  is never reached.
  * A reply without `result` is a server error, and so is
    `{"result":{"status":false}}`.
  * Under a throwing handler both replies are unreadable.
  * `PrivacyIdeaExamples.ReplyWithoutResult` and
    `PrivacyIdeaExamples.StatusWithoutValue` state this.
* The failure branch is taken for any `auth` that is not exactly `true`, a
  missing one included, not only for `auth == false`.

## Model

| member | source | states |
|---|---|---|
| RegexList.Normalise | lib/Auth/Process/checkEntityID.php:26-28 | the pattern used always starts with `/`; one that already starts with `/` is used unchanged, any other (the empty one included) becomes `"/" + p + "/"` |
| RegexList.NormaliseIdempotent | lib/Auth/Process/checkEntityID.php:26-28 | normalising a normalised pattern changes nothing, so delimited and undelimited spellings of a pattern meet in one form |
| RegexList.MatchingPatterns | lib/Auth/Process/checkEntityID.php:24-35 | no longer than the pattern list; a string is in the result exactly when it is the normalised form of some configured pattern that matches the subject |
| RegexList.MatchingPatternsSubsequence | lib/Auth/Process/checkEntityID.php:24-35 | the result is a subsequence of the normalised pattern list: configuration order is kept |
| RegexList.MatchingPatternsAppend | lib/Auth/Process/checkEntityID.php:25-34 | filtering a concatenation of pattern lists is the concatenation of the filtered parts (the function is an ordered filter) |
| RegexList.MatchingPatternsFirst | lib/Auth/Process/checkEntityID.php:24-35 | when pattern j is the first that matches, the result is non-empty and starts with the normalised pattern j |
| RegexList.PregMatchSubject | lib/Auth/Process/checkEntityID.php:31 | `preg_match` sees a string as it is, null and false as "", true as "1", an integer in decimal; an array subject never matches |
| RegexList.MatchingPatternsEmpty | lib/Auth/Process/checkEntityID.php:24-35 | the result is empty exactly when no normalised pattern matches |
| CheckEntityId.ValueLoop | lib/Auth/Process/checkEntityID.php:66-75 | once the flag is true the value loop cannot make it false |
| CheckEntityId.RuleLoop | lib/Auth/Process/checkEntityID.php:64-80 | once the flag is true the rule loop cannot make it false, although it keeps running after the inner break |
| CheckEntityId.ValueLoopExempts | lib/Auth/Process/checkEntityID.php:66-75 | the value loop ends with true exactly when it started with true or some value of the attribute matches one of the rule's normalised patterns |
| CheckEntityId.RuleLoopExempts | lib/Auth/Process/checkEntityID.php:64-80 | the rule loop ends with true exactly when it started with true or some rule whose attribute the user holds has a matching value; rule order and the inner-only break do not matter |
| CheckEntityId.AbsentAttributeSkipped | lib/Auth/Process/checkEntityID.php:65-79 | a rule for an attribute that is not set in `$state["Attributes"]` can be removed from anywhere in the list without changing the result |
| CheckEntityId.AttributeValues | lib/Auth/Process/checkEntityID.php:65-66 | a null, boolean or integer attribute map holds nothing; on an array the rule applies exactly when the attribute's entry exists and is not null, and its values are that entry's values (none for a scalar) |
| CheckEntityId.Flag | lib/Auth/Process/checkEntityID.php:52-85 | when no configured pattern matches the requesting entity ID, the flag is true; when pattern j is the first match, the flag is true exactly when rules are stored under the normalised pattern j and they exempt the user, so later matches and other keys are never consulted |
| CheckEntityId.Process | lib/Auth/Process/checkEntityID.php:86 | on success the flag is stored at `[setPath][setKey][0]` and every other path reads as before; the write fails exactly when a scalar other than null or false lies on the way |
| CheckEntityIdExamples.ExemptUserKeepsSecondFactor | lib/Auth/Process/checkEntityID.php:57-75 | provider "sp1" listed, rule memberOf = admins, user in admins: flag true |
| CheckEntityIdExamples.ExemptUserDecisionStored | lib/Auth/Process/checkEntityID.php:86 | the same request stores true at `$state["privacyIDEA"]["enabled"][0]` |
| CheckEntityIdExamples.OrdinaryUserLosesSecondFactor | lib/Auth/Process/checkEntityID.php:57-75 | the same provider with a user in staff: flag false |
| CheckEntityIdExamples.RawPatternKeyNotConsulted | lib/Auth/Process/checkEntityID.php:59-63 | rules stored under the raw pattern "sp1" instead of "/sp1/" are never found, so even an admin gets false |
| CheckEntityIdExamples.UnlistedProviderKeepsSecondFactor | lib/Auth/Process/checkEntityID.php:52-57 | an unlisted provider gets true |
| PhpValues.Get | lib/Auth/Process/checkEntityID.php:65 | an offset is found exactly when some entry has that key, and what is found is that entry's value |
| PhpValues.Put | lib/Auth/Process/privacyidea.php:66 | after `$a[k] = v`, `k` reads as `v` and every other key reads as before |
| PhpValues.PutShape | lib/Auth/Process/privacyidea.php:66 | assignment keeps every entry in its place, with a new key appended at the end |
| PhpValues.PutKeepsKeysDistinct | lib/Auth/Process/privacyidea.php:66 | assignment keeps the keys of an array distinct |
| PhpValues.ArrayKeyOfDecimal | lib/Auth/Process/checkEntityID.php:86 | the decimal spelling of a 64-bit integer used as `setPath`/`setKey` addresses the integer key |
| PhpValues.ArrayKeyIntegerSpelling | lib/Auth/Process/checkEntityID.php:86 | a string addresses an integer key only when it is that in-range integer's own decimal spelling; otherwise it addresses itself |
| PhpValues.Truthy | lib/Auth/Process/privacyidea.php:117-127 | a value is falsy exactly when it is null, false, 0, "", "0" or the empty array |
| PhpValues.SetIn | lib/Auth/Process/checkEntityID.php:86 | a scalar other than null or false at the first offset of a longer path stops the write; a successful write has the first offset set and leaves every other top-level key as it was |
| PhpValues.SetInStores | lib/Auth/Process/checkEntityID.php:86 | after a successful nested assignment the path reads as the assigned value |
| PhpValues.SetInFrame | lib/Auth/Process/checkEntityID.php:86 | a nested assignment leaves every path that neither leads to nor extends the assigned one unchanged |
| PhpValues.SetInFails | lib/Auth/Process/checkEntityID.php:86 | a nested assignment fails exactly when a value on the way is a scalar other than null or false |
| PrivacyIdea.MergeFallback | lib/Auth/Process/privacyidea.php:60-64 | same keys in the same order; each non-null field unchanged; each null field replaced by `$state['privacyidea:serverconfig'][key]` |
| PrivacyIdea.MergedField | lib/Auth/Process/privacyidea.php:60-64 | a configured field reads after the merge as itself when set and as the shared configuration's value when null |
| PrivacyIdea.MergeIdempotent | lib/Auth/Process/privacyidea.php:60-64 | merging again against the same state changes nothing |
| PrivacyIdea.StoredConfig | lib/Auth/Process/privacyidea.php:66-72 | an array of exactly five entries, `privacyideaserver`, `sslverifyhost`, `sslverifypeer`, `realm`, `uidKey`, each holding the merged field |
| PrivacyIdea.StoredConfigReads | lib/Auth/Process/privacyidea.php:66-72 | each of the five keys reads back as the merged field, any other key reads as null |
| PrivacyIdea.EnabledSetting | lib/Auth/Process/privacyidea.php:74-78 | never null; true when `enabledPath` or `enabledKey` is not a valid key; otherwise the value at `$state[enabledPath][enabledKey][0]` when that is set, and true when it is not |
| PrivacyIdea.StoredDecisionDecides | lib/Auth/Process/privacyidea.php:74-85 | with a non-empty URL, a decision stored at the configured place before the filter runs decides the OTP step: it runs exactly when the decision is truthy, so a stored false switches it off |
| PrivacyIdea.Process | lib/Auth/Process/privacyidea.php:60-92 | the merged config is kept; the five fields are stored and no other top-level entry changes; an empty URL means no OTP step; otherwise the OTP step runs exactly when the stored decision is truthy |
| PrivacyIdea.SecondFactorByDefault | lib/Auth/Process/privacyidea.php:74-83 | with no decision stored and a URL other than exactly "" (null included) the OTP step runs |
| PrivacyIdea.RequestParams | lib/Auth/Process/privacyidea.php:112-128 | `user`, `pass` and `realm` are always sent; `transaction_id`, `signaturedata` and `clientdata` are sent, with the given value, exactly when that value is truthy; no other field is sent |
| PrivacyIdea.Prop | lib/Auth/Process/privacyidea.php:134-137 | a present property reads as its value; a missing one reads as null under PHP's own rules and raises under a throwing handler |
| PrivacyIdea.HasProp | lib/Auth/Process/privacyidea.php:149-165 | `property_exists` is true exactly when the reply object has the property; under PHP's own rules it always returns, and it raises exactly under a throwing handler on something that is neither an object nor a string |
| PrivacyIdea.DetailOutcome | lib/Auth/Process/privacyidea.php:145-172 | the failure branch ends in challenge-response, wrong OTP or, only under a throwing handler, an abort; challenge-response carries `detail.transaction_id` and happens only when it exists, wrong OTP only when it does not |
| PrivacyIdea.Classify | lib/Auth/Process/privacyidea.php:133-176 | success exactly when `result.status` is `true` and `result.value.auth` is `true`, under either reading policy; an unreadable reply or an abort happens only under a throwing handler |
| PrivacyIdea.StatusNotTrueIsServerError | lib/Auth/Process/privacyidea.php:142-144 | a status other than exactly true is a server error whatever `auth` is (under a throwing handler, once the reads succeed) |
| PrivacyIdea.ChallengeWhenTransactionPending | lib/Auth/Process/privacyidea.php:145-170 | status true, auth not true, `detail.transaction_id` present: challenge-response with that id, `detail.message` and `detail.attributes` (null when absent) |
| PrivacyIdea.WrongUserPassOtherwise | lib/Auth/Process/privacyidea.php:165-172 | status true, auth not true, no `detail.transaction_id`: wrong OTP |
| PrivacyIdea.PoliciesAgree | lib/Auth/Process/privacyidea.php:133-172 | on a reply that has every field the classification reads, the reading policy makes no difference |
| PrivacyIdea.Authenticate | lib/Auth/Process/privacyidea.php:107-177 | under a throwing handler, a read of lines 110-115 that finds nothing, or a truthy array among the optional arguments put into the messages of lines 118, 122 and 126, ends the call before sending; otherwise the attempt succeeds exactly when the server's reply to the built request has status and auth both exactly true; under PHP's own rules the call never aborts and the reply is never unreadable |
| PrivacyIdeaExamples.AcceptedReply | lib/Auth/Process/privacyidea.php:175-176 | `{"result":{"status":true,"value":{"auth":true}}}` is a success |
| PrivacyIdeaExamples.ChallengeReply | lib/Auth/Process/privacyidea.php:165-169 | auth false with `transaction_id` "tx1" and message "wrong" is challenge-response ("tx1", "wrong", null) |
| PrivacyIdeaExamples.RejectedReply | lib/Auth/Process/privacyidea.php:171-172 | auth false without a transaction id is a wrong OTP |
| PrivacyIdeaExamples.FailedStatusReply | lib/Auth/Process/privacyidea.php:142-144 | status false is a server error for every `auth` |
| PrivacyIdeaExamples.StatusWithoutValue | lib/Auth/Process/privacyidea.php:133-144 | `{"result":{"status":false}}` is a server error under PHP's rules and unreadable under a throwing handler |
| PrivacyIdeaExamples.ReplyWithoutResult | lib/Auth/Process/privacyidea.php:133-144 | a reply without `result` is a server error under PHP's rules and unreadable under a throwing handler |
| PrivacyIdeaExamples.NumericStatusReply | lib/Auth/Process/privacyidea.php:142 | a status of 1 is not `true`: server error |
| PrivacyIdeaExamples.ZeroTransactionIdNotSent | lib/Auth/Process/privacyidea.php:117-120 | the falsy transaction id "0" is not sent |
| PrivacyIdeaExamples.EmptyUrlSwitchesOff | lib/Auth/Process/privacyidea.php:80-83 | an empty server URL switches the OTP step off |
| PrivacyIdeaExamples.StoredFalseSwitchesOff | lib/Auth/Process/privacyidea.php:74-85 | false stored at `$state["privacyIDEA"]["enabled"][0]`, where `checkEntityID` writes it, switches the OTP step off |
| PrivacyIdeaExamples.ArrayTransactionIdAborts | lib/Auth/Process/privacyidea.php:117-119 | under a throwing handler an array transaction id ends the call at its debug message, whatever the state and the reply |
| PrivacyIdeaExamples.MissingStoredConfig | lib/Auth/Process/privacyidea.php:110-131 | with no stored configuration a throwing handler aborts before anything is sent; under PHP's own rules the request goes out with a null user and realm |

## Left out

- Regular-expression semantics: PCRE behind `preg_match` is the `Matcher` parameter. A pattern PCRE rejects counts as no match.
- The HTTP exchange `sspmod_privacyidea_Auth_utils::curl` and JSON decoding: the server is a parameter of `Authenticate` that returns the decoded reply. `lib/Auth/utils.php` is not part of this model.
- `SimpleSAML_Auth_State::saveState`, `getModuleURL` and `redirectTrustedURL`: the OTP step is modelled as the returned decision `secondFactor`.
- Configuration loading and type checking in both constructors (`SimpleSAML_Configuration`):
  - the configuration is given as typed values;
  - an unset `entityids` (read as null, which `foreach` skips) is the empty list;
  - a null exclusion entry is an absent one.
- All `SimpleSAML_Logger` calls, and the U2F branch's debug output. Two parts of them are kept, because under a throwing handler they can raise:
  - the `property_exists` test that guards the U2F branch;
  - the conversion of the optional arguments into `authenticate`'s debug messages.
- PHP floats and objects inside the request state. PHP's 64-bit integers are unbounded `int`s in `Value`; only array keys check the 64-bit range.
- String offsets: a read at an integer offset of a string yields one character. A read at a string offset of a string is treated as absent.
- Writing through a scalar: `SetIn` reports every case as `ScalarOnPath`, the last-step string included. PHP itself behaves in three ways:
  - for `true` or a number on the way, PHP only warns and skips the write;
  - for a string before `$state[setPath][setKey]`, PHP fails (a string offset cannot be used as an array);
  - for a string at `$state[setPath][setKey]` itself, PHP writes into the string: `[0] = true` replaces its first character by "1" (so "abc" becomes "1bc"), and `[0] = false` only warns.
- PHP 8 behaviour: `property_exists` on a non-object throws a `TypeError`, and auto-vivifying `false` is deprecated. The model follows PHP 7.
- CheckEntityId.Process: follows PHP's own rule that notices and warnings do not stop the filter. A host handler that throws on them would end the filter at, for example, the following places (checkEntityID.php); the model does not cover that:
  - the empty pattern's first character (line 26);
  - a missing `Destination` (line 53);
  - an array entity ID or attribute value put into a debug message (lines 29-30 and 55);
  - `preg_match` on an invalid pattern or an array subject (line 31);
  - `foreach` over a scalar attribute entry (line 66);
  - a scalar on the write path (line 86).
- PrivacyIdea.Process: follows PHP's own rule in the same way. A missing key of the shared server configuration (privacyidea.php line 62) reads as null here, where a throwing handler would end the filter.
- PrivacyIdea.Authenticate: under a throwing handler, an array offset of null or of another scalar counts as a read that finds nothing, as in PHP 7.4 and later (earlier versions read it silently as null). The reads inside `curl` are not part of this model.
- PrivacyIdea.HasProp: assumes a string in the reply never names a loaded class. `property_exists` resolves a string as a class name, autoloading it if need be, and a class that declares `attributes` or `transaction_id` would give true.
- PrivacyIdea.ChallengeWhenTransactionPending: stated for PHP's own reading rules only. Under a throwing handler it follows through `PoliciesAgree` for replies that have every field read.
- PrivacyIdea.WrongUserPassOtherwise: stated for PHP's own reading rules only, for the same reason.
