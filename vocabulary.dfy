/** The closed vocabularies of the policy engine: the seven personas, the
    six intents, the four tool providers, and the keyword classifiers that
    decide which of them a piece of text talks about. */
module Vocabulary {

  /** The personas the assistant may speak as, in their canonical spelling. */
  datatype Role = CTO | DEV | PO | PM | CEO | MARKETING | RESEARCH

  /** The roles in the order of the supported-roles table. */
  const SupportedRoles: seq<Role> := [CTO, DEV, PO, PM, CEO, MARKETING, RESEARCH]

  const AllRoles: set<Role> := {CTO, DEV, PO, PM, CEO, MARKETING, RESEARCH}

  /** Every role is one of the seven. */
  lemma RolesComplete()
    ensures forall r: Role :: r in AllRoles
  {
    forall r: Role ensures r in AllRoles {
      match r
      case CTO => case DEV => case PO => case PM => case CEO => case MARKETING => case RESEARCH =>
    }
  }

  function RoleName(r: Role): string {
    match r
    case CTO => "CTO"
    case DEV => "DEV"
    case PO => "PO"
    case PM => "PM"
    case CEO => "CEO"
    case MARKETING => "MARKETING"
    case RESEARCH => "RESEARCH"
  }

  /** Every role is named by one or more upper-case letters, and no two roles
      share a name. */
  lemma RoleNameShape(r: Role)
    ensures |RoleName(r)| >= 1
    ensures forall i :: 0 <= i < |RoleName(r)| ==> 'A' <= RoleName(r)[i] <= 'Z'
    ensures forall q: Role :: RoleName(q) == RoleName(r) ==> q == r
  {
  }

  /** The topic of a request; `Mixed` when no keyword group matches. */
  datatype Intent = Backend | Design | Marketing | Roadmap | Research | Mixed

  /** The scored intents, in the order that breaks ties. */
  const Categories: seq<Intent> := [Backend, Design, Marketing, Roadmap, Research]

  /** The external integrations whose tools the gate controls. */
  datatype Provider = Sentry | GitHub | Shortcut | Nuxt

  /** The providers in the order of the provider pattern table. */
  const ProviderTable: seq<Provider> := [Sentry, GitHub, Shortcut, Nuxt]

  function ProviderKey(p: Provider): string {
    match p
    case Sentry => "sentry"
    case GitHub => "github"
    case Shortcut => "shortcut"
    case Nuxt => "nuxt"
  }

  function ProviderHint(p: Provider): string {
    match p
    case Sentry => "Sentry MCP (issues, traces, releases)"
    case GitHub => "GitHub MCP (PRs, commits, code context)"
    case Shortcut => "Shortcut MCP (stories, epics, milestones)"
    case Nuxt => "Nuxt UI MCP (components, docs, examples)"
  }

  /** The keyword dictionaries, as classifiers of a text. `intentGroup(c, g, t)`
      says whether keyword group `g` of intent `c` matches `t` (each scored
      intent has `GroupsPerIntent` groups); `provider(p, t)` whether `t` names
      provider `p`; `staleSensitive` and `deepMcp` whether `t` asks for live data
      or for a deeper investigation. */
  datatype Keywords = Keywords(
    intentGroup: (Intent, nat, string) -> bool,
    provider: (Provider, string) -> bool,
    staleSensitive: string -> bool,
    deepMcp: string -> bool)

  const GroupsPerIntent: nat := 2
}
