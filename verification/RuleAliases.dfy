/**
 * What routing rules leave in the context: under which names their outbounds are found,
 * which node that is, and what is said about rules without one.
 */
module RuleAliases {
  import opened Text
  import opened Digraph
  import opened Profiles
  import opened GroupResolution
  import opened ContextBuild
  import opened PassOverlay
  import opened PassServers

  // ------------------------------------------------------------------ looking up remarks

  /** `p` is the first profile called `name`. */
  ghost predicate IsFirstNamed(profiles: seq<Profile>, name: string, p: Profile) {
    exists i: nat :: i < |profiles| && profiles[i] == p && IsFirstAt(profiles, name, i)
  }

  ghost predicate IsFirstAt(profiles: seq<Profile>, name: string, i: nat)
    requires i < |profiles|
  {
    profiles[i].remarks == name && forall j :: 0 <= j < i ==> profiles[j].remarks != name
  }

  predicate NobodyNamed(profiles: seq<Profile>, name: string) {
    forall p :: p in profiles ==> p.remarks != name
  }

  /** The lookup gives the first profile with these remarks, and nothing when there is none. */
  lemma {:induction false} FindRemarksFirst(profiles: seq<Profile>, name: string)
    ensures match FindRemarks(profiles, name)
            case Some(p) => IsFirstNamed(profiles, name, p)
            case None => NobodyNamed(profiles, name)
  {
    if profiles != [] && profiles[0].remarks == name {
      assert IsFirstAt(profiles, name, 0);
    } else if profiles != [] {
      var rest := profiles[1..];
      FindRemarksFirst(rest, name);
      if FindRemarks(rest, name).Some? {
        var i: nat :| i < |rest| && rest[i] == FindRemarks(rest, name).value && IsFirstAt(rest, name, i);
        assert IsFirstAt(profiles, name, i + 1) by {
          assert forall j :: 1 <= j < i + 1 ==> profiles[j] == rest[j - 1];
        }
      }
    }
  }

  lemma FirstNamedFound(profiles: seq<Profile>, name: string, p: Profile)
    ensures FindRemarks(profiles, name) == Some(p) <==> IsFirstNamed(profiles, name, p)
    ensures FindRemarks(profiles, name) == None <==> NobodyNamed(profiles, name)
  {
    FindRemarksFirst(profiles, name);
    if IsFirstNamed(profiles, name, p) {
      var i: nat :| i < |profiles| && profiles[i] == p && IsFirstAt(profiles, name, i);
      var q := FindRemarks(profiles, name).value;
      var k: nat :| k < |profiles| && profiles[k] == q && IsFirstAt(profiles, name, k);
      assert i == k;
    }
  }

  // --------------------------------------------------------------------- what a rule does

  /** The outbound that a rule asks for, without the blanks around it. */
  function Tag(rule: Rule): string {
    match rule.outboundTag
    case Some(tag) => Trim(tag)
    case None => ""
  }

  /** The rule is read when it is enabled and not for an outbound that always exists. */
  predicate IsRead(rule: Rule) {
    rule.enabled && rule.outboundTag !in {Some("proxy"), Some("direct"), Some("block")}
  }

  /** A server that passes its checks, a group that leads to such a server, or a node that is left out. */
  ghost predicate CanRegister(env: Env, p: Profile) {
    || Trim(p.indexId) == ""
    || (match p.protocol
        case Server => p.nodeErrors == []
        case Custom => true
        case _ => exists t :: RawServerBelow(RawOf(env, p), p.indexId, t))
  }

  lemma RegistersExactly(env: Env, p: Profile)
    requires UniqueIds(env.profiles)
    ensures ResolveNode(env, map[], p).result.Success() <==> CanRegister(env, p)
  {
    if Trim(p.indexId) != "" && p.IsGroup() {
      ResolutionPreservesServers(env, p, map[]);
    }
  }

  /** Some rule asks for `tag`, and the first node called so can be registered. */
  ghost predicate IsAskedFor(env: Env, rules: seq<Rule>, tag: string, p: Profile) {
    && (exists rule :: rule in rules && IsRead(rule) && Tag(rule) == tag)
    && tag != "" && IsFirstNamed(env.profiles, tag, p) && CanRegister(env, p)
  }

  function Key(tag: string): Id {
    "remark:" + tag
  }

  lemma KeysDiffer(tag: string, other: string)
    requires Key(tag) == Key(other)
    ensures tag == other
  {
    assert Key(tag)[|"remark:"|..] == tag && Key(other)[|"remark:"|..] == other;
  }

  ghost predicate Asks(env: Env, rule: Rule, tag: string) {
    IsRead(rule) && Tag(rule) == tag != "" && FindRemarks(env.profiles, tag).Some?
    && ResolveNode(env, map[], FindRemarks(env.profiles, tag).value).result.Success()
  }

  lemma FailedPassStoresNothing(env: Env, p: Profile)
    requires !ResolveNode(env, map[], p).result.Success()
    ensures Fresh(env, p) == map[]
  {
    if p.IsGroup() {
      TraverseWrites(env, p, {p.indexId}, Walk({p.indexId}, map[]));
    }
  }

  lemma AskedStepMap(env: Env, built: Built, rule: Rule, p: Profile)
    requires IsRead(rule) && Tag(rule) != "" && FindRemarks(env.profiles, Tag(rule)) == Some(p)
    ensures RuleStep(env, built, rule).proxies
            == if ResolveNode(env, map[], p).result.Success() then (built.proxies + Fresh(env, p))[Key(Tag(rule)) := p]
               else built.proxies
  {
    PassIsOverlay(env, built.proxies, p);
    if !ResolveNode(env, map[], p).result.Success() {
      FailedPassStoresNothing(env, p);
    }
  }

  /** One rule: its node's entries, then its alias, or nothing at all. */
  lemma RuleStepMap(env: Env, built: Built, rule: Rule)
    ensures var after := RuleStep(env, built, rule).proxies;
            if Asks(env, rule, Tag(rule)) then
              var p := FindRemarks(env.profiles, Tag(rule)).value;
              after == (built.proxies + Fresh(env, p))[Key(Tag(rule)) := p]
            else after == built.proxies
  {
    var found := FindRemarks(env.profiles, Tag(rule));
    if IsRead(rule) && Tag(rule) != "" && found.Some? {
      AskedStepMap(env, built, rule, found.value);
    }
  }

  lemma OwnIdStored(env: Env, p: Profile)
    requires ResolveNode(env, map[], p).result.Success() && Trim(p.indexId) != ""
    ensures p.indexId in Fresh(env, p)
  {
  }

  /** One rule changes at most the name that it asks for. */
  lemma RuleStepName(env: Env, built: Built, rule: Rule, tag: string)
    requires UniqueIds(env.profiles) && PlainIds(env)
    ensures var after, key := RuleStep(env, built, rule).proxies, Key(tag);
            && built.proxies.Keys <= after.Keys
            && (if Asks(env, rule, tag) then key in after && after[key] == FindRemarks(env.profiles, tag).value
                else (key in after <==> key in built.proxies)
                     && (key in built.proxies ==> after[key] == built.proxies[key]))
            && (Asks(env, rule, tag) ==>
                  var p := FindRemarks(env.profiles, tag).value;
                  Trim(p.indexId) != "" ==> p.indexId in after)
  {
    RuleStepMap(env, built, rule);
    if Asks(env, rule, Tag(rule)) {
      var p := FindRemarks(env.profiles, Tag(rule)).value;
      assert IsAlias(Key(tag));
      if Key(tag) in Fresh(env, p) {
        StoredBelow(env, p, Key(tag));
      }
      if Key(tag) == Key(Tag(rule)) {
        KeysDiffer(tag, Tag(rule));
      }
      if Trim(p.indexId) != "" {
        OwnIdStored(env, p);
      }
    }
  }

  lemma {:induction false} RulesName(env: Env, built: Built, rules: seq<Rule>, tag: string)
    requires UniqueIds(env.profiles) && PlainIds(env)
    ensures var after, key := ResolveRules(env, built, rules).proxies, Key(tag);
            && built.proxies.Keys <= after.Keys
            && (if exists rule :: rule in rules && Asks(env, rule, tag) then
                  var p := FindRemarks(env.profiles, tag).value;
                  key in after && after[key] == p && (Trim(p.indexId) != "" ==> p.indexId in after)
                else (key in after <==> key in built.proxies)
                     && (key in built.proxies ==> after[key] == built.proxies[key]))
    decreases |rules|
  {
    if rules != [] {
      var next := RuleStep(env, built, rules[0]);
      ResolveFirst(env, built, rules);
      RuleStepName(env, built, rules[0], tag);
      RulesName(env, next, rules[1..], tag);
      assert forall rule :: rule in rules <==> rule == rules[0] || rule in rules[1..];
    }
  }

  /**
   * After a whole build a name leads somewhere exactly when some rule that is read asks for
   * it and the first stored node called so can be registered. It leads to that node, and the
   * node's own id is a key as well.
   */
  lemma AliasesExactly(env: Env, node: Profile, rules: seq<Rule>, tag: string)
    requires UniqueIds(env.profiles) && PlainIds(env) && node in env.profiles && CanRegister(env, node)
    ensures var after := Build(env, node, rules).proxies;
            && ("remark:" + tag in after <==> exists p :: IsAskedFor(env, rules, tag, p))
            && forall p :: IsAskedFor(env, rules, tag, p) ==>
                 after["remark:" + tag] == p && (Trim(p.indexId) != "" ==> p.indexId in after)
  {
    var active := ResolveNode(env, map[], node);
    RegistersExactly(env, node);
    RulesName(env, active, rules, tag);
    assert IsAlias(Key(tag));
    if Key(tag) in active.proxies {
      StoredBelow(env, node, Key(tag));
    }
    AskedForExactly(env, rules, tag);
  }

  lemma AskedForExactly(env: Env, rules: seq<Rule>, tag: string)
    requires UniqueIds(env.profiles)
    ensures forall p :: IsAskedFor(env, rules, tag, p)
                        <==> FindRemarks(env.profiles, tag) == Some(p) && exists rule :: rule in rules && Asks(env, rule, tag)
  {
    forall p ensures IsAskedFor(env, rules, tag, p)
                     <==> FindRemarks(env.profiles, tag) == Some(p) && exists rule :: rule in rules && Asks(env, rule, tag)
    {
      FirstNamedFound(env.profiles, tag, p);
      RegistersExactly(env, p);
      if rule :| rule in rules && Asks(env, rule, tag) {
      }
      if rule :| rule in rules && IsRead(rule) && Tag(rule) == tag {
        if IsAskedFor(env, rules, tag, p) {
          assert Asks(env, rule, tag);
        }
      }
    }
  }

  /** When the active node cannot be registered nothing is stored at all. */
  lemma FailedBuildStoresNothing(env: Env, node: Profile, rules: seq<Rule>)
    requires UniqueIds(env.profiles) && !CanRegister(env, node)
    ensures Build(env, node, rules).proxies == map[] && !Build(env, node, rules).result.Success()
  {
    RegistersExactly(env, node);
    FailedPassStoresNothing(env, node);
  }

  // --------------------------------------------------------------- what is said about rules

  predicate AsksForNobody(env: Env, rule: Rule) {
    !IsRead(rule) || Tag(rule) == "" || NobodyNamed(env.profiles, Tag(rule))
  }

  function Named(rule: Rule): string {
    match rule.remarks
    case Some(remarks) => remarks
    case None => ""
  }

  /** What one rule adds to the warnings: its own problem, or what its node's registration says. */
  function RuleNotes(env: Env, rule: Rule): seq<Issue> {
    if !IsRead(rule) then []
    else if Tag(rule) == "" then [EmptyOutboundTag(Named(rule))]
    else
      match FindRemarks(env.profiles, Tag(rule))
      case None => [OutboundNotFound(Named(rule), Tag(rule))]
      case Some(p) =>
        var r := ResolveNode(env, map[], p).result;
        Marked(Named(rule), Tag(rule), false, r.warnings) + Marked(Named(rule), Tag(rule), true, r.errors)
  }

  /** Each issue with the rule and the outbound in front. */
  function Marked(name: string, tag: string, isError: bool, issues: seq<Issue>): (marked: seq<Issue>)
    ensures |marked| == |issues|
    ensures forall i :: 0 <= i < |issues| ==> marked[i] == InRule(name, tag, isError, issues[i])
  {
    seq(|issues|, i requires 0 <= i < |issues| => InRule(name, tag, isError, issues[i]))
  }

  lemma MarkedByRule(rule: Rule, tag: string, isError: bool, issues: seq<Issue>)
    ensures InRules(rule, tag, isError, issues) == Marked(Named(rule), tag, isError, issues)
  {
    var marked := Marked(Named(rule), tag, isError, issues);
    assert RuleName(rule) == Named(rule);
    forall i | 0 <= i < |issues| ensures InRules(rule, tag, isError, issues)[i] == marked[i] {
    }
  }

  function AllNotes(env: Env, rules: seq<Rule>): seq<Issue> {
    if rules == [] then [] else RuleNotes(env, rules[0]) + AllNotes(env, rules[1..])
  }

  lemma Associates(a: seq<Issue>, b: seq<Issue>, c: seq<Issue>)
    ensures a + b + c == a + (b + c)
  {
  }

  lemma ReadStepNotes(env: Env, built: Built, rule: Rule, p: Profile)
    requires IsRead(rule) && Tag(rule) != "" && FindRemarks(env.profiles, Tag(rule)) == Some(p)
    ensures RuleStep(env, built, rule).result
            == NodeResult(built.result.errors, built.result.warnings + RuleNotes(env, rule))
  {
    var r := ResolveNode(env, map[], p).result;
    var w, e := Marked(Named(rule), Tag(rule), false, r.warnings), Marked(Named(rule), Tag(rule), true, r.errors);
    PassIsOverlay(env, built.proxies, p);
    MarkedByRule(rule, Tag(rule), false, r.warnings);
    MarkedByRule(rule, Tag(rule), true, r.errors);
    Associates(built.result.warnings, w, e);
    assert r.errors == [] ==> w + e == w;
  }

  lemma StepNotes(env: Env, built: Built, rule: Rule)
    ensures RuleStep(env, built, rule).result
            == NodeResult(built.result.errors, built.result.warnings + RuleNotes(env, rule))
  {
    var found := FindRemarks(env.profiles, Tag(rule));
    if IsRead(rule) && Tag(rule) != "" && found.Some? {
      ReadStepNotes(env, built, rule, found.value);
    }
  }

  lemma {:induction false} RulesNotes(env: Env, built: Built, rules: seq<Rule>)
    ensures ResolveRules(env, built, rules).result
            == NodeResult(built.result.errors, built.result.warnings + AllNotes(env, rules))
    decreases |rules|
  {
    if rules != [] {
      var next := RuleStep(env, built, rules[0]);
      ResolveFirst(env, built, rules);
      StepNotes(env, built, rules[0]);
      RulesNotes(env, next, rules[1..]);
      Associates(built.result.warnings, RuleNotes(env, rules[0]), AllNotes(env, rules[1..]));
    }
  }

  /**
   * A build succeeds exactly when its active node can be registered, whatever the rules say.
   * Its warnings are those about the active node and then those about each rule in turn.
   */
  lemma BuildNotes(env: Env, node: Profile, rules: seq<Rule>)
    requires UniqueIds(env.profiles)
    ensures var active, built := ResolveNode(env, map[], node).result, Build(env, node, rules).result;
            && (built.Success() <==> CanRegister(env, node))
            && (if CanRegister(env, node) then built.warnings == active.warnings + AllNotes(env, rules)
                else built == active)
  {
    RegistersExactly(env, node);
    RulesNotes(env, ResolveNode(env, map[], node), rules);
  }

  /** The notes about rules that ask for nobody. */
  lemma IdleNotes(env: Env, rule: Rule)
    ensures !rule.enabled ==> RuleNotes(env, rule) == []
    ensures rule.outboundTag in {Some("proxy"), Some("direct"), Some("block")} ==> RuleNotes(env, rule) == []
    ensures IsRead(rule) && Tag(rule) == "" ==> RuleNotes(env, rule) == [EmptyOutboundTag(Named(rule))]
    ensures IsRead(rule) && Tag(rule) != "" && NobodyNamed(env.profiles, Tag(rule)) ==>
              RuleNotes(env, rule) == [OutboundNotFound(Named(rule), Tag(rule))]
  {
    FindRemarksFirst(env.profiles, Tag(rule));
  }

  lemma {:induction false} SameMap(env: Env, a: Built, b: Built, rules: seq<Rule>)
    requires a.proxies == b.proxies
    ensures ResolveRules(env, a, rules).proxies == ResolveRules(env, b, rules).proxies
    decreases |rules|
  {
    if rules != [] {
      ResolveFirst(env, a, rules);
      ResolveFirst(env, b, rules);
      RuleStepMap(env, a, rules[0]);
      RuleStepMap(env, b, rules[0]);
      SameMap(env, RuleStep(env, a, rules[0]), RuleStep(env, b, rules[0]), rules[1..]);
    }
  }

  /** A rule that asks for nobody, or for a node that cannot be registered, leaves the map alone. */
  lemma IdleRule(env: Env, node: Profile, before: seq<Rule>, rule: Rule, behind: seq<Rule>)
    requires UniqueIds(env.profiles)
    requires AsksForNobody(env, rule)
             || exists p :: IsFirstNamed(env.profiles, Tag(rule), p) && !CanRegister(env, p)
    ensures Build(env, node, before + [rule] + behind).proxies == Build(env, node, before + behind).proxies
  {
    var active := ResolveNode(env, map[], node);
    if p :| IsFirstNamed(env.profiles, Tag(rule), p) && !CanRegister(env, p) {
      FirstNamedFound(env.profiles, Tag(rule), p);
      RegistersExactly(env, p);
    }
    FindRemarksFirst(env.profiles, Tag(rule));
    var built := ResolveRules(env, active, before);
    ResolveRulesAppend(env, active, before + [rule], behind);
    ResolveRulesAppend(env, active, before, [rule]);
    ResolveRulesAppend(env, active, before, behind);
    RuleStepMap(env, built, rule);
    assert [rule][1..] == [];
    SameMap(env, RuleStep(env, built, rule), built, behind);
  }
}
