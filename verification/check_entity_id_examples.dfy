/**
 Worked requests for the entity-ID filter, stated for a toy
 regular-expression engine in which a pattern matches one subject only.
 */
module CheckEntityIdExamples {
  import opened Wrappers
  import opened PhpValues
  import opened RegexList
  import opened CheckEntityId

  /** A toy engine: `/text/` matches exactly the subject `text`. */
  predicate LiteralMatch(pattern: string, subject: string)
  {
    pattern == "/" + subject + "/"
  }

  function Request(entityId: string, group: string): Entries
  {
    [ (StrKey("Destination"), Arr([(StrKey("entityid"), Str(entityId))])),
      (StrKey("Attributes"), Arr([(StrKey("memberOf"), Arr([(IntKey(0), Str(group))]))])) ]
  }

  /** Provider "sp1" is listed; members of "admins" keep the second factor. */
  function Listing(ruleKey: string): GateConfig
  {
    GateConfig(["sp1"], map[ruleKey := [AttrRule("memberOf", ["admins"])]], Some("privacyIDEA"), Some("enabled"))
  }

  /** The request reads back as built: entity ID and the user's groups. */
  lemma RequestReads(entityId: string, group: string)
    ensures RequestEntityId(Request(entityId, group)) == Str(entityId)
    ensures AttributeValues(UserAttributes(Request(entityId, group)), "memberOf") == Some([Str(group)])
  {
    WordKey("memberOf");
    var state := Request(entityId, group);
    var groups := Arr([(IntKey(0), Str(group))]);
    var attrs := Arr([(StrKey("memberOf"), groups)]);
    assert StrKey("Destination") != StrKey("Attributes");
    assert Get(state, StrKey("Attributes")) == Some(attrs);
    assert Lookup(Arr(state), [StrKey("Attributes")]) == Lookup(attrs, []);
    assert UserAttributes(state) == attrs;
    assert Get(attrs.entries, StrKey("memberOf")) == Some(groups);
    assert Lookup(attrs, [StrKey("memberOf")]) == Lookup(groups, []);
    assert ForeachValues(groups) == [Str(group)];
  }

  /** The listed provider's rule exempts members of "admins". */
  lemma AdminsExempted()
    ensures Exempted([AttrRule("memberOf", ["admins"])], UserAttributes(Request("sp1", "admins")), LiteralMatch)
  {
    var rule := AttrRule("memberOf", ["admins"]);
    RequestReads("sp1", "admins");
    assert PregMatch(LiteralMatch, Normalise(["admins"][0]), Str("admins"));
    assert ValueExempt([Str("admins")][0], rule.patterns, LiteralMatch);
    assert RuleExempts([rule][0], UserAttributes(Request("sp1", "admins")), LiteralMatch);
  }

  /** An exempt user of a listed provider keeps the second factor. */
  lemma ExemptUserKeepsSecondFactor()
    ensures Flag(Listing("/sp1/"), Request("sp1", "admins"), LiteralMatch)
  {
    RequestReads("sp1", "admins");
    assert PregMatch(LiteralMatch, Normalise("sp1"), Str("sp1"));
    assert IsFirstMatch(RequestEntityId(Request("sp1", "admins")), Listing("/sp1/").entityIds, LiteralMatch, 0);
    assert Normalise("sp1") == "/sp1/";
    AdminsExempted();
    assert "/sp1/" in Listing("/sp1/").excludeAttributes;
    assert Listing("/sp1/").excludeAttributes["/sp1/"] == [AttrRule("memberOf", ["admins"])];
  }

  /** The decision lands in `$state["privacyIDEA"]["enabled"][0]`. */
  lemma ExemptUserDecisionStored()
    ensures Process(Listing("/sp1/"), Request("sp1", "admins"), LiteralMatch).Success?
    ensures Lookup(Arr(Process(Listing("/sp1/"), Request("sp1", "admins"), LiteralMatch).value),
                   [StrKey("privacyIDEA"), StrKey("enabled"), IntKey(0)]) == Some(Bool(true))
  {
    var cfg := Listing("/sp1/");
    var state := Request("sp1", "admins");
    ExemptUserKeepsSecondFactor();
    WordKey("privacyIDEA");
    WordKey("enabled");
    var path := FlagPath(cfg);
    assert path == [StrKey("privacyIDEA"), StrKey("enabled"), IntKey(0)];
    assert !PathBlocked(state, path) by {
      assert path[..1] == [StrKey("privacyIDEA")];
      assert path[..2] == [StrKey("privacyIDEA"), StrKey("enabled")];
      assert Get(state, StrKey("privacyIDEA")) == None;
      assert Lookup(Arr(state), path[..1]) == None;
      assert Lookup(Arr(state), path[..2]) == None;
    }
  }

  /** Any other user of a listed provider loses the second factor. */
  lemma OrdinaryUserLosesSecondFactor()
    ensures !Flag(Listing("/sp1/"), Request("sp1", "staff"), LiteralMatch)
  {
    var cfg := Listing("/sp1/");
    var state := Request("sp1", "staff");
    RequestReads("sp1", "staff");
    assert PregMatch(LiteralMatch, Normalise("sp1"), Str("sp1"));
    assert IsFirstMatch(RequestEntityId(state), cfg.entityIds, LiteralMatch, 0);
    var rule := AttrRule("memberOf", ["admins"]);
    assert !PregMatch(LiteralMatch, Normalise("admins"), Str("staff")) by {
      assert ("/" + "admins" + "/")[1] != ("/" + "staff" + "/")[1];
    }
    assert !ValueExempt(Str("staff"), ["admins"], LiteralMatch);
    assert !RuleExempts(rule, UserAttributes(state), LiteralMatch);
  }

  /** Exclusion rules stored under the pattern as configured ("sp1") rather
      than its normalised form ("/sp1/") are never found: even an exempt user
      loses the second factor. */
  lemma RawPatternKeyNotConsulted()
    ensures !Flag(Listing("sp1"), Request("sp1", "admins"), LiteralMatch)
  {
    RequestReads("sp1", "admins");
    assert PregMatch(LiteralMatch, Normalise("sp1"), Str("sp1"));
    assert IsFirstMatch(RequestEntityId(Request("sp1", "admins")), Listing("sp1").entityIds, LiteralMatch, 0);
    assert Normalise("sp1")[0] != "sp1"[0];
  }

  /** A provider that is not listed keeps the second factor. */
  lemma UnlistedProviderKeepsSecondFactor()
    ensures Flag(Listing("/sp1/"), Request("sp2", "staff"), LiteralMatch)
  {
    RequestReads("sp2", "staff");
    assert !PregMatch(LiteralMatch, Normalise("sp1"), Str("sp2")) by {
      assert ("/" + "sp1" + "/")[3] != ("/" + "sp2" + "/")[3];
    }
  }
}
