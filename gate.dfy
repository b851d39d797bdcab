/** The per-session tool policy and the gate in front of provider tools: a
    tool call is admitted only for a provider the request named, every named
    provider is checked once before any is checked again, and the number of
    calls is capped. */
module Gate {
  import opened Wrappers
  import opened Text
  import opened Seqs
  import opened Vocabulary

  /** What the plugin remembers about a session's current request. */
  datatype Policy = Policy(
    roles: seq<Role>,
    targets: map<Role, nat>,
    intent: Intent,
    mcpProviders: seq<Provider>,
    mcpHints: seq<string>,
    staleSensitive: bool,
    allowDeepMcp: bool,
    mcpCallCount: nat,
    mcpTouched: map<Provider, nat>)

  /** The policy a request installs: no call made, no provider touched. */
  function FreshPolicy(roles: seq<Role>, targets: map<Role, nat>, intent: Intent, mcpProviders: seq<Provider>,
                       mcpHints: seq<string>, staleSensitive: bool, allowDeepMcp: bool): Policy
  {
    Policy(roles, targets, intent, mcpProviders, mcpHints, staleSensitive, allowDeepMcp, 0, map[])
  }

  /** How often a provider was called; a provider never called counts 0. */
  function Touched(p: Policy, q: Provider): nat {
    if q in p.mcpTouched then p.mcpTouched[q] else 0
  }

  function TouchFn(p: Policy): Provider -> nat {
    q => Touched(p, q)
  }

  /** The call limit: 6 when the request asks to dig deeper, else 2. */
  function Cap(p: Policy): nat {
    if p.allowDeepMcp then 6 else 2
  }

  // ---------------------------------------------------------------------
  // Tool names

  /** The tool-name prefix of each provider's tools. */
  function ToolPrefix(q: Provider): string {
    match q
    case Sentry => "sentry_"
    case GitHub => "github_"
    case Shortcut => "shortcut_"
    case Nuxt => "nuxt-ui_"
  }

  /** The provider whose prefix starts the tool name, prefixes tried in the
      order of the provider table. */
  function ProviderFromToolName(tool: string): (r: Option<Provider>)
    ensures r.Some? ==> OccursAt(tool, 0, ToolPrefix(r.value))
    ensures r.None? ==> forall q :: !OccursAt(tool, 0, ToolPrefix(q))
  {
    if OccursAt(tool, 0, "sentry_") then Some(Sentry)
    else if OccursAt(tool, 0, "github_") then Some(GitHub)
    else if OccursAt(tool, 0, "shortcut_") then Some(Shortcut)
    else if OccursAt(tool, 0, "nuxt-ui_") then Some(Nuxt)
    else None
  }

  /** Every tool named with a provider's prefix belongs to that provider: no
      prefix starts another. */
  lemma ToolNameRoundTrip(q: Provider, rest: string)
    ensures ProviderFromToolName(ToolPrefix(q) + rest) == Some(q)
  {
    var tool := ToolPrefix(q) + rest;
    assert tool[..|ToolPrefix(q)|] == ToolPrefix(q);
    assert tool[0] == ToolPrefix(q)[0] && tool[1] == ToolPrefix(q)[1];
    assert OccursAt(tool, 0, ToolPrefix(q));
  }

  // ---------------------------------------------------------------------
  // The gate

  /** The named providers not called yet, in the order they were named. */
  function MissingProviders(p: Policy): (m: seq<Provider>)
    ensures forall q :: q in m <==> q in p.mcpProviders && Touched(p, q) == 0
  {
    FilterSpec(p.mcpProviders, q => Touched(p, q) == 0);
    Filter(p.mcpProviders, q => Touched(p, q) == 0)
  }

  /** Why a call is refused. */
  datatype Denial =
    | NoProviderMentioned
    | ProviderNotMentioned(provider: Provider)
    | ProvidersMissing(provider: Provider, missing: seq<Provider>)
    | CallLimit(cap: nat)

  datatype Decision = Allow(policy: Policy) | Deny(reason: Denial)

  /** A call to a tool of provider `q`, checked in the plugin's order: some
      provider named at all, this one named, each named provider called
      once before any again, and the call limit. An admitted call counts one
      call and one touch of `q`. */
  function Admit(p: Policy, q: Provider): (d: Decision)
    ensures d.Allow? ==> d.policy.mcpCallCount == p.mcpCallCount + 1
    ensures d.Allow? ==> forall r :: Touched(d.policy, r) == Touched(p, r) + (if r == q then 1 else 0)
    ensures d.Allow? ==> d.policy.(mcpCallCount := p.mcpCallCount, mcpTouched := p.mcpTouched) == p
  {
    if |p.mcpProviders| == 0 then Deny(NoProviderMentioned)
    else if q !in p.mcpProviders then Deny(ProviderNotMentioned(q))
    else if |p.mcpProviders| > 1 && MissingProviders(p) != [] && q !in MissingProviders(p) then
      Deny(ProvidersMissing(q, MissingProviders(p)))
    else if p.mcpCallCount >= Cap(p) then Deny(CallLimit(Cap(p)))
    else Allow(p.(mcpCallCount := p.mcpCallCount + 1, mcpTouched := p.mcpTouched[q := Touched(p, q) + 1]))
  }

  /** When a call is admitted, stated on the touches alone: the provider was
      named, it is the only one named or not called yet or every named one
      was called, and the limit is not reached. */
  lemma AdmitWhen(p: Policy, q: Provider)
    ensures Admit(p, q).Allow? <==>
      q in p.mcpProviders &&
      (|p.mcpProviders| == 1 || Touched(p, q) == 0 || forall r :: r in p.mcpProviders ==> Touched(p, r) > 0) &&
      p.mcpCallCount < Cap(p)
  {
    var m := MissingProviders(p);
    if q in p.mcpProviders && |p.mcpProviders| > 1 && m != [] {
      assert m[0] in p.mcpProviders && Touched(p, m[0]) == 0;
    }
    EmptyIffNoMember(m);
  }

  /** Which check refuses a call: the first that fails, in the plugin's
      order. */
  lemma DenialOrder(p: Policy, q: Provider)
    ensures Admit(p, q) == Deny(NoProviderMentioned) <==> p.mcpProviders == []
    ensures Admit(p, q) == Deny(ProviderNotMentioned(q)) <==> p.mcpProviders != [] && q !in p.mcpProviders
    ensures Admit(p, q).Deny? && Admit(p, q).reason.ProvidersMissing? ==>
      q in p.mcpProviders && |p.mcpProviders| > 1 && Touched(p, q) > 0 &&
      Admit(p, q).reason.missing == MissingProviders(p) != []
    ensures Admit(p, q) == Deny(CallLimit(Cap(p))) <==>
      q in p.mcpProviders && (|p.mcpProviders| == 1 || MissingProviders(p) == [] || q in MissingProviders(p)) &&
      p.mcpCallCount >= Cap(p)
  {
  }

  // ---------------------------------------------------------------------
  // The invariant of a policy

  /** The call count is within the limit and is the sum of the touches, only
      named providers are touched, and with several named providers none is
      touched twice while another is still untouched. */
  predicate PolicyOk(p: Policy) {
    p.mcpCallCount <= Cap(p) &&
    Sum(ProviderTable, TouchFn(p)) == p.mcpCallCount &&
    (forall q :: Touched(p, q) > 0 ==> q in p.mcpProviders) &&
    (forall q :: |p.mcpProviders| > 1 && Touched(p, q) >= 2 ==> MissingProviders(p) == [])
  }

  lemma ProviderTableDistinct()
    ensures Distinct(ProviderTable)
    ensures forall q :: q in ProviderTable
  {
    forall q ensures q in ProviderTable {
      match q
      case Sentry => assert ProviderTable[0] == q;
      case GitHub => assert ProviderTable[1] == q;
      case Shortcut => assert ProviderTable[2] == q;
      case Nuxt => assert ProviderTable[3] == q;
    }
  }

  /** A fresh policy meets the invariant. */
  lemma FreshPolicyOk(roles: seq<Role>, targets: map<Role, nat>, intent: Intent, mcpProviders: seq<Provider>,
                      mcpHints: seq<string>, staleSensitive: bool, allowDeepMcp: bool)
    ensures PolicyOk(FreshPolicy(roles, targets, intent, mcpProviders, mcpHints, staleSensitive, allowDeepMcp))
  {
    var p := FreshPolicy(roles, targets, intent, mcpProviders, mcpHints, staleSensitive, allowDeepMcp);
    SumPointwise(ProviderTable, TouchFn(p), _ => 0);
    SumAtMost(ProviderTable, _ => 0, 0);
  }

  /** An admitted call keeps the invariant. */
  lemma AdmitKeepsOk(p: Policy, q: Provider)
    requires PolicyOk(p) && Admit(p, q).Allow?
    ensures PolicyOk(Admit(p, q).policy)
  {
    AdmitCountsOnce(p, q);
    AdmitKeepsCoverage(p, q);
  }

  /** An admitted call adds exactly one to the sum of the touches. */
  lemma AdmitCountsOnce(p: Policy, q: Provider)
    requires Admit(p, q).Allow?
    ensures Sum(ProviderTable, TouchFn(Admit(p, q).policy)) == Sum(ProviderTable, TouchFn(p)) + 1
  {
    ProviderTableDistinct();
    SumBumpOne(ProviderTable, TouchFn(p), TouchFn(Admit(p, q).policy), q);
  }

  /** An admitted call touches a provider a second time only once every
      named provider has been touched. */
  lemma AdmitKeepsCoverage(p: Policy, q: Provider)
    requires PolicyOk(p) && Admit(p, q).Allow?
    ensures var p' := Admit(p, q).policy;
      forall r :: |p'.mcpProviders| > 1 && Touched(p', r) >= 2 ==> MissingProviders(p') == []
  {
    var p' := Admit(p, q).policy;
    forall r | |p'.mcpProviders| > 1 && Touched(p', r) >= 2 ensures MissingProviders(p') == [] {
      assert MissingProviders(p) == [];
      assert forall x :: x !in MissingProviders(p');
      EmptyIffNoMember(MissingProviders(p'));
    }
  }

  /** Under the invariant no provider is called more often than the limit. */
  lemma TouchesWithinCap(p: Policy, q: Provider)
    requires PolicyOk(p)
    ensures Touched(p, q) <= Cap(p)
  {
    ProviderTableDistinct();
    SumAtLeastTerm(ProviderTable, TouchFn(p), FirstIndex(ProviderTable, q));
  }
}
