/**
 * Building a context: the active node is registered, then the outbound of every routing
 * rule, all into one proxy map.
 */
module ContextBuild {
  import opened Text
  import opened Digraph
  import opened Profiles
  import opened GroupResolution

  const PROXY_TAG := "proxy"
  const DIRECT_TAG := "direct"
  const BLOCK_TAG := "block"
  const ALIAS_PREFIX := "remark:"

  datatype Rule = Rule(remarks: Option<string>, outboundTag: Option<string>, enabled: bool)

  datatype Built = Built(proxies: Proxies, result: NodeResult)

  predicate IsAlias(key: Id) {
    ALIAS_PREFIX <= key
  }

  predicate IsBuiltinOutbound(tag: Option<string>) {
    tag == Some(PROXY_TAG) || tag == Some(DIRECT_TAG) || tag == Some(BLOCK_TAG)
  }

  /** Groups are traversed, other nodes registered alone; a node without an id is left out. */
  function ResolveNode(env: Env, proxies: Proxies, node: Profile): Built {
    if Trim(node.indexId) == "" then Built(proxies, EMPTY_RESULT)
    else if node.IsGroup() then
      var o := RegisterGroup(env, node, proxies);
      Built(o.walk.proxies, o.result)
    else Built(RegisterSingle(proxies, node), SingleResult(node))
  }

  function RuleName(rule: Rule): string {
    if rule.remarks.Some? then rule.remarks.value else ""
  }

  function InRules(rule: Rule, tag: string, isError: bool, issues: seq<Issue>): seq<Issue> {
    seq(|issues|, i requires 0 <= i < |issues| => InRule(RuleName(rule), tag, isError, issues[i]))
  }

  /** A rule that cannot be resolved only leaves warnings. */
  function ResolveRule(env: Env, built: Built, rule: Rule): Built {
    var tag := if rule.outboundTag.Some? then Trim(rule.outboundTag.value) else "";
    if tag == "" then built.(result := built.result.PushWarning(EmptyOutboundTag(RuleName(rule))))
    else
      match FindRemarks(env.profiles, tag)
      case None => built.(result := built.result.PushWarning(OutboundNotFound(RuleName(rule), tag)))
      case Some(node) =>
        var resolved := ResolveNode(env, built.proxies, node);
        var warned := built.result.(warnings := built.result.warnings + InRules(rule, tag, false, resolved.result.warnings));
        if resolved.result.Success() then
          Built(resolved.proxies[ALIAS_PREFIX + tag := node], warned)
        else
          Built(resolved.proxies, warned.(warnings := warned.warnings + InRules(rule, tag, true, resolved.result.errors)))
  }

  function ResolveRules(env: Env, built: Built, rules: seq<Rule>): Built
    decreases |rules|
  {
    if rules == [] then built
    else
      var next :=
        if rules[0].enabled && !IsBuiltinOutbound(rules[0].outboundTag) then ResolveRule(env, built, rules[0])
        else built;
      ResolveRules(env, next, rules[1..])
  }

  function Build(env: Env, node: Profile, rules: seq<Rule>): Built {
    var active := ResolveNode(env, map[], node);
    if active.result.Success() then ResolveRules(env, active, rules) else active
  }

  // ------------------------------------------------------------------ the code as it runs

  class CoreConfigContext {
    var allProxies: Proxies

    constructor ()
      ensures allProxies == map[]
    {
      allProxies := map[];
    }

    method RegisterSingleNode(node: Profile) returns (result: NodeResult)
      requires !node.IsGroup()
      modifies this
      ensures allProxies == RegisterSingle(old(allProxies), node)
      ensures result == SingleResult(node)
    {
      result := SingleResult(node);
      if result.Success() {
        allProxies := allProxies[node.indexId := node];
      }
    }
  }

  class CoreConfigContextBuilder {
    const env: Env

    constructor (env: Env)
      ensures this.env == env
    {
      this.env := env;
    }

    method TraverseGroupNode(context: CoreConfigContext, node: Profile, visited: set<Id>, ancestors: set<Id>)
      returns (result: NodeResult, visited': set<Id>)
      modifies context
      ensures Outcome(Walk(visited', context.allProxies), result)
              == Traverse(env, node, ancestors, Walk(visited, old(context.allProxies)))
      decreases IdsOf(env.profiles) - ancestors
    {
      var kids := env.ChildProfiles(node.protocol);
      var childIds: seq<Id>, seen: set<Id> := [], {};
      visited', result := visited, EMPTY_RESULT;
      ghost var done := VisitChildren(env, node, kids, ancestors, Progress(Walk(visited, context.allProxies), [], EMPTY_RESULT));
      for i := 0 to |kids|
        invariant seen == set id | id in childIds
        invariant VisitChildren(env, node, kids[i..], ancestors, Progress(Walk(visited', context.allProxies), childIds, result)) == done
      {
        var kid := kids[i];
        if kid.indexId in ancestors {
          result := result.PushError(GroupCycle(node.remarks, kid.remarks));
          continue;
        }
        if kid.indexId !in visited' {
          var kidResult;
          if !kid.IsGroup() {
            kidResult := context.RegisterSingleNode(kid);
          } else {
            kidResult, visited' := TraverseGroupNode(context, kid, visited', ancestors + {kid.indexId});
          }
          result := result.ExtendPrefixed(node, kid, kidResult);
          if !kidResult.Success() {
            continue;
          }
          visited' := visited' + {kid.indexId};
        }
        if kid.indexId !in seen {
          childIds, seen := childIds + [kid.indexId], seen + {kid.indexId};
        }
      }
      if childIds == [] {
        result := result.PushError(NoValidChild(node.remarks));
        return;
      }
      result := NodeResult([], result.warnings + result.errors);
      context.allProxies := context.allProxies[node.indexId := node.WithChildren(childIds)];
    }

    method RegisterNode(context: CoreConfigContext, node: Profile) returns (result: NodeResult)
      requires Trim(node.indexId) != ""
      modifies context
      ensures Built(context.allProxies, result) == ResolveNode(env, old(context.allProxies), node)
    {
      if node.IsGroup() {
        var visited: set<Id>;
        result, visited := TraverseGroupNode(context, node, {node.indexId}, {node.indexId});
      } else {
        result := context.RegisterSingleNode(node);
      }
    }

    method ResolveRuleOutbound(context: CoreConfigContext, result: NodeResult, rule: Rule) returns (result': NodeResult)
      modifies context
      ensures Built(context.allProxies, result') == ResolveRule(env, Built(old(context.allProxies), result), rule)
    {
      var tag := if rule.outboundTag.Some? then Trim(rule.outboundTag.value) else "";
      if tag == "" {
        return result.PushWarning(EmptyOutboundTag(RuleName(rule)));
      }
      var found := FindRemarks(env.profiles, tag);
      if found.None? {
        return result.PushWarning(OutboundNotFound(RuleName(rule), tag));
      }
      var node := found.value;
      var ruleResult := EMPTY_RESULT;
      if Trim(node.indexId) != "" {
        ruleResult := RegisterNode(context, node);
      }
      result' := result.(warnings := result.warnings + InRules(rule, tag, false, ruleResult.warnings));
      if !ruleResult.Success() {
        return result'.(warnings := result'.warnings + InRules(rule, tag, true, ruleResult.errors));
      }
      context.allProxies := context.allProxies[ALIAS_PREFIX + tag := node];
    }

    method BuildContext(node: Profile, rules: seq<Rule>) returns (context: CoreConfigContext, result: NodeResult)
      ensures fresh(context)
      ensures Built(context.allProxies, result) == Build(env, node, rules)
    {
      context := new CoreConfigContext();
      result := EMPTY_RESULT;
      if Trim(node.indexId) != "" {
        result := RegisterNode(context, node);
      }
      if !result.Success() {
        return;
      }
      for i := 0 to |rules|
        invariant fresh(context)
        invariant ResolveRules(env, Built(context.allProxies, result), rules[i..]) == Build(env, node, rules)
      {
        if rules[i].enabled && !IsBuiltinOutbound(rules[i].outboundTag) {
          result := ResolveRuleOutbound(context, result, rules[i]);
        }
      }
    }
  }
}
