/**
 The entity-ID filter (`checkEntityID`): decides whether the second factor is
 required for a request and records the decision in the request state at
 `$state[setPath][setKey][0]`. A request from a listed service provider turns
 the second factor off, unless the user holds an attribute value listed for
 that provider, which turns it back on.
 */
module CheckEntityId {
  import opened Wrappers
  import opened PhpValues
  import opened RegexList

  /** One entry of the exclusion rules of a provider: an attribute name and the
      patterns its values are matched against. */
  datatype AttrRule = AttrRule(attribute: string, patterns: seq<string>)

  /** The filter's configuration. `excludeAttributes` is keyed by the
      normalised entity-ID pattern; `setPath` and `setKey` are None when not
      configured (they then read as null, which PHP uses as the key ""). */
  datatype GateConfig = GateConfig(
    entityIds: seq<string>,
    excludeAttributes: map<string, seq<AttrRule>>,
    setPath: Option<string>,
    setKey: Option<string>)

  function OffsetKey(o: Option<string>): Key
  {
    match o
    case None => StrKey("")
    case Some(s) => ArrayKey(s)
  }

  /** The offsets of `$state[setPath][setKey][0]`. */
  function FlagPath(cfg: GateConfig): seq<Key>
  {
    [OffsetKey(cfg.setPath), OffsetKey(cfg.setKey), IntKey(0)]
  }

  /** `$state["Destination"]["entityid"]`. */
  function RequestEntityId(state: Entries): Value
  {
    Read(Arr(state), [StrKey("Destination"), StrKey("entityid")])
  }

  /** `$state["Attributes"]`. */
  function UserAttributes(state: Entries): Value
  {
    Read(Arr(state), [StrKey("Attributes")])
  }

  /** The values `foreach` visits: those of an array; a scalar is not iterated. */
  function ForeachValues(v: Value): (r: seq<Value>)
    ensures v.Arr? ==> |r| == |v.entries| && forall i :: 0 <= i < |r| ==> r[i] == v.entries[i].1
    ensures !v.Arr? ==> r == []
  {
    match v
    case Arr(es) => seq(|es|, i requires 0 <= i < |es| => es[i].1)
    case _ => []
  }

  /** The values the user holds under `name`, or None when
      `isset($attrs[name])` fails and the rule is skipped. */
  function AttributeValues(attrs: Value, name: string): (r: Option<seq<Value>>)
    ensures attrs.Null? || attrs.Bool? || attrs.Int? ==> r.None?
    ensures attrs.Arr? ==>
      (r.Some? <==> Get(attrs.entries, ArrayKey(name)).Some? && Get(attrs.entries, ArrayKey(name)).value != Null)
    ensures attrs.Arr? && r.Some? ==> r.value == ForeachValues(Get(attrs.entries, ArrayKey(name)).value)
  {
    assert [ArrayKey(name)][1..] == [];
    assert attrs.Arr? ==> Lookup(attrs, [ArrayKey(name)]) == Get(attrs.entries, ArrayKey(name));
    if IsSet(attrs, [ArrayKey(name)]) then Some(ForeachValues(Read(attrs, [ArrayKey(name)])))
    else None
  }

  /** The inner loop over the values of one attribute: on the first value that
      matches one of the rule's patterns the flag becomes true and the loop
      breaks. */
  function ValueLoop(vals: seq<Value>, patterns: seq<string>, matches: Matcher, ret: bool): (r: bool)
    ensures ret ==> r
  {
    if |vals| == 0 then ret
    else if |MatchingPatterns(vals[0], patterns, matches)| > 0 then true
    else ValueLoop(vals[1..], patterns, matches, ret)
  }

  /** The outer loop over the exclusion rules of the matched provider; it runs
      to the end even after the flag has become true. */
  function RuleLoop(rules: seq<AttrRule>, attrs: Value, matches: Matcher, ret: bool): (r: bool)
    ensures ret ==> r
  {
    if |rules| == 0 then ret
    else
      var ret' :=
        match AttributeValues(attrs, rules[0].attribute)
        case None => ret
        case Some(vals) => ValueLoop(vals, rules[0].patterns, matches, ret);
      RuleLoop(rules[1..], attrs, matches, ret')
  }

  // ---------------------------------------------------------------------------
  // The exemption rule stated without loops

  /** Some normalised pattern of the list matches the value. */
  ghost predicate ValueExempt(v: Value, patterns: seq<string>, matches: Matcher)
  {
    exists q :: 0 <= q < |patterns| && PregMatch(matches, Normalise(patterns[q]), v)
  }

  /** The user holds the rule's attribute and one of its values is exempt. */
  ghost predicate RuleExempts(rule: AttrRule, attrs: Value, matches: Matcher)
  {
    match AttributeValues(attrs, rule.attribute)
    case None => false
    case Some(vals) => exists j :: 0 <= j < |vals| && ValueExempt(vals[j], rule.patterns, matches)
  }

  ghost predicate Exempted(rules: seq<AttrRule>, attrs: Value, matches: Matcher)
  {
    exists i :: 0 <= i < |rules| && RuleExempts(rules[i], attrs, matches)
  }

  /** The value loop sets the flag exactly when some value is exempt. */
  lemma {:induction false} ValueLoopExempts(vals: seq<Value>, patterns: seq<string>, matches: Matcher, ret: bool)
    ensures ValueLoop(vals, patterns, matches, ret)
        == (ret || exists j :: 0 <= j < |vals| && ValueExempt(vals[j], patterns, matches))
  {
    if |vals| > 0 {
      MatchingPatternsEmpty(vals[0], patterns, matches);
      ValueLoopExempts(vals[1..], patterns, matches, ret);
      assert forall j :: 0 < j < |vals| ==> vals[j] == vals[1..][j - 1];
      if ValueExempt(vals[0], patterns, matches) {
        assert |MatchingPatterns(vals[0], patterns, matches)| > 0;
      }
    }
  }

  /** The rule loop ends with true exactly when it started with true or some
      rule exempts the user; the break leaving the outer loop running changes
      nothing. */
  lemma {:induction false} RuleLoopExempts(rules: seq<AttrRule>, attrs: Value, matches: Matcher, ret: bool)
    ensures RuleLoop(rules, attrs, matches, ret) == (ret || Exempted(rules, attrs, matches))
  {
    if |rules| > 0 {
      var ret' :=
        match AttributeValues(attrs, rules[0].attribute)
        case None => ret
        case Some(vals) => ValueLoop(vals, rules[0].patterns, matches, ret);
      match AttributeValues(attrs, rules[0].attribute) {
        case None =>
        case Some(vals) => ValueLoopExempts(vals, rules[0].patterns, matches, ret);
      }
      assert ret' == (ret || RuleExempts(rules[0], attrs, matches));
      RuleLoopExempts(rules[1..], attrs, matches, ret');
      assert forall i :: 0 < i < |rules| ==> rules[i] == rules[1..][i - 1];
      if Exempted(rules, attrs, matches) && !RuleExempts(rules[0], attrs, matches) {
        var i :| 0 <= i < |rules| && RuleExempts(rules[i], attrs, matches);
        assert RuleExempts(rules[1..][i - 1], attrs, matches);
      }
    }
  }

  /** A rule for an attribute the user does not hold has no effect, wherever it
      stands in the list. */
  lemma {:induction false} AbsentAttributeSkipped(a: seq<AttrRule>, rule: AttrRule, b: seq<AttrRule>, attrs: Value, matches: Matcher, ret: bool)
    requires AttributeValues(attrs, rule.attribute).None?
    ensures RuleLoop(a + [rule] + b, attrs, matches, ret) == RuleLoop(a + b, attrs, matches, ret)
  {
    if |a| == 0 {
      assert a + [rule] + b == [rule] + b;
      assert ([rule] + b)[1..] == b;
      assert a + b == b;
    } else {
      var ret' :=
        match AttributeValues(attrs, a[0].attribute)
        case None => ret
        case Some(vals) => ValueLoop(vals, a[0].patterns, matches, ret);
      assert (a + [rule] + b)[0] == a[0] && (a + [rule] + b)[1..] == a[1..] + [rule] + b;
      assert (a + b)[0] == a[0] && (a + b)[1..] == a[1..] + b;
      AbsentAttributeSkipped(a[1..], rule, b, attrs, matches, ret');
    }
  }

  // ---------------------------------------------------------------------------
  // The decision and the write

  /** The flag `process` computes: true by default; when some listed pattern
      matches the requesting entity ID, the exclusion rules stored under the
      FIRST such pattern, in its normalised form, decide: false when there are
      none, otherwise true exactly when they exempt the user. Later matches
      and rules stored under any other key are never consulted. */
  function Flag(cfg: GateConfig, state: Entries, matches: Matcher): (r: bool)
    ensures (forall i :: 0 <= i < |cfg.entityIds| ==>
      !PregMatch(matches, Normalise(cfg.entityIds[i]), RequestEntityId(state))) ==> r
    ensures forall j :: IsFirstMatch(RequestEntityId(state), cfg.entityIds, matches, j) ==>
      (r <==> var key := Normalise(cfg.entityIds[j]);
        key in cfg.excludeAttributes && Exempted(cfg.excludeAttributes[key], UserAttributes(state), matches))
  {
    var subject := RequestEntityId(state);
    var matched := MatchingPatterns(subject, cfg.entityIds, matches);
    MatchingPatternsEmpty(subject, cfg.entityIds, matches);
    MatchingPatternsFirstEach(subject, cfg.entityIds, matches);
    if |matched| == 0 then true
    else
      var key := matched[0];
      if key !in cfg.excludeAttributes then false
      else
        RuleLoopExempts(cfg.excludeAttributes[key], UserAttributes(state), matches, false);
        RuleLoop(cfg.excludeAttributes[key], UserAttributes(state), matches, false)
  }

  /** `process`: compute the flag and store it at `$state[setPath][setKey][0]`.
      The write fails only when a scalar other than null or false sits on the
      way there; otherwise the flag is stored and every path that neither leads
      to nor extends the flag's location reads as before. */
  function Process(cfg: GateConfig, state: Entries, matches: Matcher): (r: Result<Entries, WriteError>)
    ensures r.Success? ==>
      Lookup(Arr(r.value), FlagPath(cfg)) == Some(Bool(Flag(cfg, state, matches)))
    ensures r.Success? ==>
      forall p :: !IsPrefix(p, FlagPath(cfg)) && !IsPrefix(FlagPath(cfg), p) ==>
        Lookup(Arr(r.value), p) == Lookup(Arr(state), p)
    ensures r.Failure? <==> PathBlocked(state, FlagPath(cfg))
  {
    var flag := Bool(Flag(cfg, state, matches));
    var r := SetIn(state, FlagPath(cfg), flag);
    SetInFails(state, FlagPath(cfg), flag);
    if r.Success? then
      SetInStores(state, FlagPath(cfg), flag);
      SetInFrameAll(state, FlagPath(cfg), flag);
      r
    else r
  }
}
